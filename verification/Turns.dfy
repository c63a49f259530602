/** Whose turn it is: what each step does to the ready list, and that nobody is overtaken on it. */
module Turns {
  import opened Scheduler
  import opened Sync
  import opened SyncInv
  import opened LockInv
  import opened Interleaving

  /** What a step may do to the ready list: nothing; a thread that was woken in front; a new thread behind; or
      a switch to the first, and then the thread that ran is behind all others or not ready. */
  ghost predicate Moved(c: Sched, d: Sched) {
    || (d.cur == c.cur && d.ready == c.ready)
    || (exists w :: w in c.status && d.cur == c.cur && d.ready == [w] + c.ready)
    || (exists u :: u !in c.status && d.cur == c.cur && d.ready == c.ready + [u])
    || (c.ready != [] && d.cur == c.ready[0] && (d.ready == c.ready[1..] || d.ready == c.ready[1..] + [c.cur]))
    || (c.ready == [] && d.cur in {c.cur, c.idle} && d.ready == [])
  }

  lemma ScheduleMoves(c: Sched, why: Status)
    requires Settled(c) && why !in {Running, Ready} && (c.cur == c.idle ==> why == Blocked)
    ensures !Scheduler.Stuck(c) && !Scheduler.Stuck(GiveUp(c)) && !Scheduler.Stuck(Park(c, why))
    ensures Moved(c, Schedule(c)) && Moved(c, Schedule(GiveUp(c))) && Moved(c, Schedule(Park(c, why)))
  {
    hide Schedule, Scheduler.Stuck;
    ScheduleWorks(c);
    ScheduleOrder(c);
    YieldWorks(c);
    YieldOrder(c);
    BlockWorks(c, why);
    ScheduleOrder(Park(c, why));
  }

  lemma UnblockMoves(c: Sched, w: Tid)
    requires w in c.status
    ensures Moved(c, Unblock(c, w))
  {
  }

  lemma TestMoves(k: State, k': State, s: Sid, forLock: bool)
    requires Settled(k.sch) && Test(k, k', s, forLock) && k.sch.cur != k.sch.idle
    ensures Moved(k.sch, k'.sch)
  {
    hide Moved, Settled, Schedule, Scheduler.Stuck;
    ScheduleMoves(k.sch, Blocked);
    StayMoves(k.sch);
  }

  lemma StayMoves(c: Sched)
    ensures Moved(c, c)
  {
  }

  lemma ThreadMoves(k: State, k': State, u: Tid, why: Status)
    requires Settled(k.sch)
    requires Tick(k, k') || Yield(k, k') || Resume(k, k') || Sync.Exit(k, k') || Sleep(k, k', why) || Wake(k, k', u)
      || Reap(k, k', u)
    ensures Moved(k.sch, k'.sch)
  {
    hide Moved, Settled, Schedule, Scheduler.Stuck, Unblock;
    if Tick(k, k') || Yield(k, k') {
      ScheduleMoves(k.sch, Blocked);
    } else if Sync.Exit(k, k') {
      ScheduleMoves(k.sch, Died);
    } else if Sleep(k, k', why) {
      ScheduleMoves(k.sch, why);
    } else if Wake(k, k', u) {
      UnblockMoves(k.sch, u);
    } else {
      SameMoves(k.sch, k'.sch);
    }
  }

  lemma SameMoves(c: Sched, d: Sched)
    requires d.cur == c.cur && d.ready == c.ready
    ensures Moved(c, d)
  {
  }

  lemma UpMoves(k: State, k': State, s: Sid)
    requires Up(k, k', s)
    ensures Moved(k.sch, k'.sch)
  {
    hide Moved, Unblock;
    if k.sems[s].waiters != [] {
      UnblockMoves(k.sch, k.sems[s].waiters[0]);
    } else {
      StayMoves(k.sch);
    }
  }

  lemma SpawnMoves(k: State, k': State, u: Tid)
    requires Spawn(k, k', u)
    ensures Moved(k.sch, k'.sch)
  {
  }

  lemma LockMoves(k: State, k': State, l: Sid)
    requires LockStep(k, k', l)
    ensures Moved(k.sch, k'.sch)
  {
    hide Moved;
    StayMoves(k.sch);
  }

  /** Every step of every interleaving does one of these. */
  lemma NextMoves(k: State, k': State)
    requires Inv(k) && Next(k, k')
    ensures Moved(k.sch, k'.sch) && Settled(k.sch)
  {
    hide Inv, Tick, Yield, Resume, Sync.Exit, Sleep, Wake, Spawn, Reap, Test, Up, LockStep, Moved, Settled;
    InvSettled(k);
    IdleIsOutside(k);
    if Tick(k, k') || Yield(k, k') || Resume(k, k') || Sync.Exit(k, k') {
      ThreadMoves(k, k', 0, Blocked);
    } else if why :| Sleep(k, k', why) {
      ThreadMoves(k, k', 0, why);
    } else if u :| Wake(k, k', u) || Spawn(k, k', u) || Reap(k, k', u) {
      if Spawn(k, k', u) {
        SpawnMoves(k, k', u);
      } else {
        ThreadMoves(k, k', u, Blocked);
      }
    } else {
      SemMoves(k, k');
    }
  }

  lemma InvSettled(k: State)
    requires Inv(k)
    ensures Settled(k.sch)
  {
  }

  lemma SemMoves(k: State, k': State)
    requires Settled(k.sch) && CanRun(k) && k.sch.idle in k.pc && k.pc[k.sch.idle] in {Free, Asleep}
    requires Retry(k, k') || exists s ::
      PlainDown(k, k', s) || PlainUp(k, k', s) || LockDown(k, k', s) || LockUp(k, k', s) || LockStep(k, k', s)
    ensures Moved(k.sch, k'.sch)
  {
    hide Test, Up, LockStep, Moved, Settled;
    if Retry(k, k') {
      TestMoves(k, k', k.pc[k.sch.cur].s, k.pc[k.sch.cur].forLock);
    } else {
      var s :| PlainDown(k, k', s) || PlainUp(k, k', s) || LockDown(k, k', s) || LockUp(k, k', s) || LockStep(k, k', s);
      if PlainDown(k, k', s) {
        TestMoves(k, k', s, false);
      } else if LockDown(k, k', s) {
        TestMoves(k, k', s, true);
      } else if LockStep(k, k', s) {
        LockMoves(k, k', s);
      } else {
        UpMoves(k, k', s);
      }
    }
  }

  /** A thread that is preempted or yields goes behind all others and stays ready; one that blocks or ends is
      off the processor with its status, and the first runs; one that is woken is ready and first, and a new
      one is ready and last. */
  lemma StepOrder(k: State, k': State, u: Tid, why: Status)
    requires Settled(k.sch)
    ensures Tick(k, k') || Yield(k, k') ==> Rotated(k.sch, k'.sch)
    ensures Sleep(k, k', why) ==> HandedOver(Park(k.sch, why), k'.sch)
    ensures Sync.Exit(k, k') ==> HandedOver(Park(k.sch, Died), k'.sch)
    ensures Wake(k, k', u) ==> k'.sch.ready == [u] + k.sch.ready && k'.sch.status == k.sch.status[u := Ready]
    ensures Spawn(k, k', u) ==> k'.sch.ready == k.sch.ready + [u] && k'.sch.status == k.sch.status[u := Ready]
  {
    hide Settled, Tick, Yield, Sleep, Sync.Exit, Rotated, HandedOver;
    if Tick(k, k') || Yield(k, k') {
      SwitchOrder(k, k');
    }
    if Sleep(k, k', why) {
      SleepOrder(k, k', why);
    }
    if Sync.Exit(k, k') {
      ExitOrder(k, k');
    }
  }

  lemma SwitchOrder(k: State, k': State)
    requires Settled(k.sch) && (Tick(k, k') || Yield(k, k'))
    ensures Rotated(k.sch, k'.sch)
  {
    hide Settled, Schedule, Scheduler.Stuck, Rotated, HandedOver;
    SettledEnters(k.sch);
    RunsNow(k.sch);
    if Tick(k, k') {
      ScheduleOrder(k.sch);
    } else {
      YieldOrder(k.sch);
    }
  }

  lemma SleepOrder(k: State, k': State, why: Status)
    requires Settled(k.sch) && Sleep(k, k', why)
    ensures HandedOver(Park(k.sch, why), k'.sch)
  {
    hide Settled, Schedule, Scheduler.Stuck, Rotated, HandedOver;
    BlockWorks(k.sch, why);
    ScheduleOrder(Park(k.sch, why));
  }

  lemma ExitOrder(k: State, k': State)
    requires Settled(k.sch) && Sync.Exit(k, k')
    ensures HandedOver(Park(k.sch, Died), k'.sch)
  {
    hide Settled, Schedule, Scheduler.Stuck, Rotated, HandedOver;
    BlockWorks(k.sch, Died);
    ScheduleOrder(Park(k.sch, Died));
  }

  lemma RunsNow(c: Sched)
    requires Settled(c)
    ensures c.status[c.cur] == Running
  {
  }

  // ---------------------------------------------------------------- nobody is overtaken

  /** Thread a is before thread b on the list. */
  ghost predicate Ahead(list: seq<Tid>, a: Tid, b: Tid) {
    exists i, j :: 0 <= i < j < |list| && list[i] == a && list[j] == b
  }

  lemma AheadWithin(x: seq<Tid>, list: seq<Tid>, y: seq<Tid>, a: Tid, b: Tid)
    requires Ahead(list, a, b)
    ensures Ahead(x + list + y, a, b)
  {
    var i, j :| 0 <= i < j < |list| && list[i] == a && list[j] == b;
    var all := x + list + y;
    assert all[|x| + i] == a && all[|x| + j] == b;
  }

  lemma AheadLater(list: seq<Tid>, a: Tid, b: Tid)
    requires Ahead(list, a, b) && list[0] != a
    ensures Ahead(list[1..], a, b)
  {
    var i, j :| 0 <= i < j < |list| && list[i] == a && list[j] == b;
    assert list[1..][i - 1] == a && list[1..][j - 1] == b;
  }

  lemma FrontIsGone(list: seq<Tid>, y: seq<Tid>, a: Tid)
    requires NoRepeats(list) && list != [] && a in list && a !in y && a in list[1..] + y
    ensures list[0] != a
  {
  }

  lemma AheadPopped(list: seq<Tid>, y: seq<Tid>, a: Tid, b: Tid)
    requires NoRepeats(list) && list != [] && Ahead(list, a, b) && a in list && a !in y && a in list[1..] + y
    ensures Ahead(list[1..] + y, a, b)
  {
    hide Ahead, NoRepeats;
    FrontIsGone(list, y, a);
    AheadLater(list, a, b);
    AheadWithin([], list[1..], y, a, b);
    assert [] + list[1..] + y == list[1..] + y;
  }

  lemma MovedKeepsOrder(c: Sched, d: Sched, a: Tid, b: Tid)
    requires Settled(c) && Moved(c, d) && Ahead(c.ready, a, b) && a in d.ready && b in d.ready
    ensures Ahead(d.ready, a, b)
  {
    hide Ahead, Settled, NoRepeats;
    AheadIsThere(c.ready, a, b);
    RunningIsOff(c);
    if d.cur == c.cur && d.ready == c.ready {
    } else if w :| w in c.status && d.cur == c.cur && d.ready == [w] + c.ready {
      AheadWithin([w], c.ready, [], a, b);
      assert [w] + c.ready + [] == [w] + c.ready;
    } else if u :| u !in c.status && d.cur == c.cur && d.ready == c.ready + [u] {
      AheadWithin([], c.ready, [u], a, b);
      assert [] + c.ready + [u] == c.ready + [u];
    } else {
      var y := if d.ready == c.ready[1..] then [] else [c.cur];
      assert d.ready == c.ready[1..] + y;
      AheadPopped(c.ready, y, a, b);
    }
  }

  lemma AheadIsThere(list: seq<Tid>, a: Tid, b: Tid)
    requires Ahead(list, a, b)
    ensures a in list && b in list && list != []
  {
  }

  lemma RunningIsOff(c: Sched)
    requires Settled(c)
    ensures c.cur !in c.ready && NoRepeats(c.ready)
  {
  }

  /** In every run, of two threads that stay ready the one in front stays in front, whatever wakes, starts,
      blocks or is preempted meanwhile; and it is the front of the list that runs next. */
  lemma {:induction false} NobodyOvertakes(run: seq<State>, i: nat, j: nat, a: Tid, b: Tid)
    requires IsRun(run) && i <= j < |run| && Ahead(run[i].sch.ready, a, b)
    requires forall m :: i <= m <= j ==> a in run[m].sch.ready && b in run[m].sch.ready
    ensures Ahead(run[j].sch.ready, a, b)
  {
    hide Inv, Init, Next, Ahead, Moved, Settled;
    if i < j {
      NobodyOvertakes(run, i, j - 1, a, b);
      RunKeepsInv(run, j - 1);
      NextMoves(run[j - 1], run[j]);
      MovedKeepsOrder(run[j - 1].sch, run[j].sch, a, b);
    }
  }

  /** A thread gets the processor only from the front of the ready list, or as the idle thread when the list
      is empty. */
  lemma RunsFromFront(run: seq<State>, i: nat)
    requires IsRun(run) && i < |run| - 1 && run[i + 1].sch.cur != run[i].sch.cur
    ensures var c, d := run[i].sch, run[i + 1].sch;
      if c.ready == [] then d.cur == c.idle else d.cur == c.ready[0] && d.cur !in d.ready
  {
    hide Inv, Init, Next;
    RunKeepsInv(run, i);
    NextMoves(run[i], run[i + 1]);
    var c := run[i].sch;
    assert c.ready != [] ==> c.ready[0] in c.ready && c.cur !in c.ready;
  }

  // ---------------------------------------------------------------- waiters of a semaphore

  /** A step adds the running thread at the end, takes the first away, or leaves the waiters alone. */
  ghost predicate Queues(ws: seq<Tid>, ws': seq<Tid>, t: Tid) {
    ws' == ws || ws' == ws + [t] || (ws != [] && ws' == ws[1..])
  }

  lemma NextQueues(k: State, k': State, s: Sid)
    requires Next(k, k') && s in k.sems
    ensures s in k'.sems && Queues(k.sems[s].waiters, k'.sems[s].waiters, k.sch.cur)
  {
    hide Tick, Yield, Resume, Sync.Exit, Sleep, Wake, Spawn, Reap, Test, Up, LockStep, Queues;
    if Retry(k, k') {
      TestQueues(k, k', k.pc[k.sch.cur].s, s, k.pc[k.sch.cur].forLock);
    } else if r :| PlainDown(k, k', r) || LockDown(k, k', r) {
      TestQueues(k, k', r, s, LockDown(k, k', r));
    } else if r :| PlainUp(k, k', r) || LockUp(k, k', r) {
      UpQueues(k, k', r, s);
    } else {
      ElsewhereQueues(k, k');
      QueueSame(k.sems[s].waiters, k.sch.cur);
    }
  }

  lemma TestQueues(k: State, k': State, r: Sid, s: Sid, forLock: bool)
    requires Test(k, k', r, forLock) && s in k.sems
    ensures s in k'.sems && Queues(k.sems[s].waiters, k'.sems[s].waiters, k.sch.cur)
  {
    hide Schedule, Scheduler.Stuck, Queues;
    QueueSame(k.sems[s].waiters, k.sch.cur);
    QueueMoves(k.sems[s].waiters, k.sch.cur);
  }

  lemma UpQueues(k: State, k': State, r: Sid, s: Sid)
    requires Up(k, k', r) && s in k.sems
    ensures s in k'.sems && Queues(k.sems[s].waiters, k'.sems[s].waiters, k.sch.cur)
  {
    hide Unblock, Queues;
    QueueSame(k.sems[s].waiters, k.sch.cur);
    QueueMoves(k.sems[s].waiters, k.sch.cur);
  }

  lemma ElsewhereQueues(k: State, k': State)
    requires || Tick(k, k') || Yield(k, k') || Resume(k, k') || Sync.Exit(k, k') || (exists why :: Sleep(k, k', why))
             || (exists u :: Wake(k, k', u) || Spawn(k, k', u) || Reap(k, k', u)) || (exists l :: LockStep(k, k', l))
    ensures k'.sems == k.sems
  {
    hide Schedule, Scheduler.Stuck, Unblock;
  }

  lemma QueueSame(ws: seq<Tid>, t: Tid)
    ensures Queues(ws, ws, t)
  {
  }

  lemma QueueMoves(ws: seq<Tid>, t: Tid)
    ensures Queues(ws, ws + [t], t) && (ws != [] ==> Queues(ws, ws[1..], t))
  {
  }

  lemma QueuedKeepsOrder(ws: seq<Tid>, ws': seq<Tid>, t: Tid, a: Tid, b: Tid)
    requires NoRepeats(ws) && Queues(ws, ws', t) && Ahead(ws, a, b) && a in ws' && b in ws'
    ensures Ahead(ws', a, b)
  {
    hide Ahead;
    AheadIsThere(ws, a, b);
    if ws' == ws + [t] {
      AheadWithin([], ws, [t], a, b);
      assert [] + ws + [t] == ws';
    } else if ws' != ws {
      assert ws[1..] + [] == ws';
      FrontIsGone(ws, [], a);
      AheadLater(ws, a, b);
    }
  }

  /** In every run, of two threads that wait for a semaphore the one that came first stays first, and only the
      first is taken off the list. */
  lemma {:induction false} NobodyJumpsQueue(run: seq<State>, s: Sid, i: nat, j: nat, a: Tid, b: Tid)
    requires IsRun(run) && i <= j < |run| && s in run[i].sems && Ahead(run[i].sems[s].waiters, a, b)
    requires forall m :: i <= m <= j && s in run[m].sems ==>
      a in run[m].sems[s].waiters && b in run[m].sems[s].waiters
    ensures s in run[j].sems && Ahead(run[j].sems[s].waiters, a, b)
  {
    hide Inv, Init, Next, Ahead, Queues;
    if i < j {
      NobodyJumpsQueue(run, s, i, j - 1, a, b);
      RunKeepsInv(run, j - 1);
      NextQueues(run[j - 1], run[j], s);
      WaitersOnce(run[j - 1], s);
      QueuedKeepsOrder(run[j - 1].sems[s].waiters, run[j].sems[s].waiters, run[j - 1].sch.cur, a, b);
    }
  }

  lemma WaitersOnce(k: State, s: Sid)
    requires Inv(k) && s in k.sems
    ensures NoRepeats(k.sems[s].waiters)
  {
    hide LocksOk;
    assert QueueOk(k, s);
  }
}
