/** The scheduler of thread/thread.c: one processor, a ready list, and a status per thread.
    switch_to is a change of the running thread. */
module Scheduler {

  type Tid = nat

  datatype Status = Running | Ready | Blocked | Waiting | Hanging | Died

  /** Who runs, which thread is the idle thread, every thread's status, and thread_ready_list. */
  datatype Sched = Sched(cur: Tid, idle: Tid, status: map<Tid, Status>, ready: seq<Tid>)

  predicate Able(s: Status) { s == Running || s == Ready }

  ghost predicate NoRepeats(s: seq<Tid>) {
    forall i, j :: 0 <= i < j < |s| ==> s[i] != s[j]
  }

  /** What holds whenever schedule is entered: the ready list is exactly the READY threads, once
      each, and nobody but the current thread can be RUNNING. */
  ghost predicate Entering(c: Sched) {
    && c.cur in c.status && c.idle in c.status
    && NoRepeats(c.ready)
    && (forall t :: t in c.ready <==> t in c.status && c.status[t] == Ready)
    && (forall t :: t in c.status && c.status[t] == Running ==> t == c.cur)
    && c.status[c.idle] in {Running, Ready, Blocked}
  }

  /** What holds between scheduler calls: exactly the current thread is RUNNING. */
  ghost predicate Settled(c: Sched) {
    Entering(c) && c.status[c.cur] == Running
  }

  // ---------------------------------------------------------------- the operations

  /** thread_unblock: to the front of the ready list, unless it is READY already. */
  function Unblock(c: Sched, t: Tid): Sched
    requires t in c.status
  {
    if c.status[t] != Ready then c.(ready := [t] + c.ready, status := c.status[t := Ready]) else c
  }

  /** The current thread goes to the end of the ready list if it is still RUNNING. */
  function Requeue(c: Sched): Sched
    requires c.cur in c.status
  {
    if c.status[c.cur] == Running then c.(ready := c.ready + [c.cur], status := c.status[c.cur := Ready]) else c
  }

  /** The idle thread is made ready when nobody else is. */
  function WakeIdle(c: Sched): Sched
    requires c.idle in c.status
  {
    if c.ready == [] then Unblock(c, c.idle) else c
  }

  /** The head of the ready list runs. */
  function Dispatch(c: Sched): Sched
    requires c.ready != []
  {
    c.(cur := c.ready[0], ready := c.ready[1..], status := c.status[c.ready[0] := Running])
  }

  /** schedule() finds the ready list empty and the idle thread READY: list_pop would take the
      tail of an empty list. */
  predicate Stuck(c: Sched)
    requires c.cur in c.status && c.idle in c.status
  {
    WakeIdle(Requeue(c)).ready == []
  }

  function Schedule(c: Sched): Sched
    requires c.cur in c.status && c.idle in c.status && !Stuck(c)
  {
    Dispatch(WakeIdle(Requeue(c)))
  }

  /** thread_block up to schedule. */
  function Park(c: Sched, s: Status): Sched { c.(status := c.status[c.cur := s]) }

  /** thread_yield up to schedule. */
  function GiveUp(c: Sched): Sched { c.(ready := c.ready + [c.cur], status := c.status[c.cur := Ready]) }

  // ---------------------------------------------------------------- why they keep order

  lemma UnblockKeeps(c: Sched, t: Tid)
    requires Entering(c) && t in c.status && c.status[t] != Running
    ensures Entering(Unblock(c, t)) && Unblock(c, t).ready != []
    ensures Settled(c) ==> Settled(Unblock(c, t))
    ensures Unblock(c, t).status == c.status[t := Ready]
  {
    assert c.status[t] == Ready ==> c.status[t := Ready] == c.status;
    var d := Unblock(c, t);
    assert c.status[t] != Ready ==> d.ready[0] == t && d.ready[1..] == c.ready;
  }

  lemma RequeueKeeps(c: Sched)
    requires Entering(c)
    ensures Entering(Requeue(c))
    ensures forall t :: t in Requeue(c).status ==> Requeue(c).status[t] != Running
  {
    if c.status[c.cur] == Running {
      assert c.cur !in c.ready;
    }
  }

  lemma DispatchKeeps(c: Sched)
    requires Entering(c) && c.ready != [] && forall t :: t in c.status ==> c.status[t] != Running
    ensures Settled(Dispatch(c))
  {
    var d := Dispatch(c);
    assert c.ready == [c.ready[0]] + c.ready[1..];
    forall t ensures t in d.ready <==> t in d.status && d.status[t] == Ready {
      if t in d.ready {
        assert t in c.ready;
      }
    }
  }

  /** The statuses after schedule: the chosen thread runs, the old one is READY if it was RUNNING,
      the idle thread may have been woken, and everybody else is as before. */
  ghost predicate Switched(c: Sched, d: Sched) {
    && d.idle == c.idle && d.status.Keys == c.status.Keys
    && forall t :: t in c.status ==>
         if Able(c.status[t]) then Able(d.status[t])
         else d.status[t] == c.status[t] || (t == c.idle && Able(d.status[t]))
  }

  /** An empty ready list means that the idle thread is BLOCKED. */
  lemma EmptyMeansIdleBlocked(c: Sched)
    requires Entering(c) && c.ready == [] && forall t :: t in c.status ==> c.status[t] != Running
    ensures c.status[c.idle] == Blocked
  {
    assert c.status[c.idle] == Ready ==> c.idle in c.ready;
  }

  lemma WakeIdleKeeps(c: Sched)
    requires Entering(c) && forall t :: t in c.status ==> c.status[t] != Running
    ensures Entering(WakeIdle(c)) && WakeIdle(c).ready != []
    ensures forall t :: t in WakeIdle(c).status ==> WakeIdle(c).status[t] != Running
    ensures WakeIdle(c).status == c.status || WakeIdle(c).status == c.status[c.idle := Ready]
  {
    if c.ready == [] {
      EmptyMeansIdleBlocked(c);
      UnblockKeeps(c, c.idle);
    }
  }

  /** From every state in which schedule may be called, the pop succeeds, because an empty ready
      list means that the idle thread is BLOCKED; and the result is settled again. */
  lemma ScheduleWorks(c: Sched)
    requires Entering(c)
    ensures Requeue(c).ready == [] ==> Requeue(c).status[c.idle] == Blocked
    ensures !Stuck(c) && Settled(Schedule(c)) && Switched(c, Schedule(c))
  {
    hide Entering, Settled, WakeIdle, Switched;
    IdleStaysPut(c);
    RequeueKeeps(c);
    if Requeue(c).ready == [] {
      EmptyMeansIdleBlocked(Requeue(c));
    }
    WakeIdleKeeps(Requeue(c));
    DispatchKeeps(WakeIdle(Requeue(c)));
    ScheduleSwitches(c);
  }

  lemma IdleStaysPut(c: Sched)
    requires Entering(c)
    ensures c.cur in c.status && c.idle in c.status && Requeue(c).idle == c.idle && c.idle in Requeue(c).status
  {
  }

  lemma ScheduleSwitches(c: Sched)
    requires Entering(c) && !Stuck(c)
    ensures Switched(c, Schedule(c))
  {
    hide NoRepeats;
    var d := WakeIdle(Requeue(c));
    assert d.ready[0] in d.ready;
    RequeueKeeps(c);
    WakeIdleKeeps(Requeue(c));
  }

  lemma BlockWorks(c: Sched, s: Status)
    requires Settled(c) && s !in {Running, Ready} && (c.cur == c.idle ==> s == Blocked)
    ensures var p := Park(c, s);
      Entering(p) && !Stuck(p) && Settled(Schedule(p)) && Switched(p, Schedule(p))
  {
    var p := Park(c, s);
    assert c.cur !in c.ready;
    ScheduleWorks(p);
  }

  // ---------------------------------------------------------------- whose turn it is

  /** A thread that runs and calls schedule, or yields, goes behind all that are ready, and the first of
      them runs; alone it runs on. */
  ghost predicate Rotated(c: Sched, d: Sched) {
    && d.idle == c.idle
    && (c.ready == [] ==> d == c)
    && (c.ready != [] ==>
          && d.cur == c.ready[0] && d.ready == c.ready[1..] + [c.cur]
          && d.status == c.status[c.cur := Ready][d.cur := Running])
  }

  /** A thread that is not RUNNING any more leaves the processor to the first that is ready, and to the
      idle thread if there is none. */
  ghost predicate HandedOver(c: Sched, d: Sched) {
    && d.idle == c.idle && d.cur == (if c.ready == [] then c.idle else c.ready[0])
    && d.ready == (if c.ready == [] then [] else c.ready[1..]) && d.status == c.status[d.cur := Running]
  }

  lemma ScheduleOrder(c: Sched)
    requires Entering(c) && !Stuck(c)
    ensures c.status[c.cur] == Running ==> Rotated(c, Schedule(c))
    ensures c.status[c.cur] != Running ==> HandedOver(c, Schedule(c))
  {
    var d := Requeue(c);
    if d.ready == [] {
      RequeueKeeps(c);
      EmptyMeansIdleBlocked(d);
    } else if c.status[c.cur] == Running {
      assert c.ready == [] ==> d.ready == [c.cur] && c.status[c.cur := Ready][c.cur := Running] == c.status;
      assert c.ready != [] ==> d.ready[1..] == c.ready[1..] + [c.cur];
    }
  }

  lemma YieldOrder(c: Sched)
    requires Settled(c) && !Stuck(GiveUp(c))
    ensures Rotated(c, Schedule(GiveUp(c)))
  {
    var g := GiveUp(c);
    assert c.ready == [] ==> g.ready == [c.cur] && c.status[c.cur := Ready][c.cur := Running] == c.status;
    assert c.ready != [] ==> g.ready[1..] == c.ready[1..] + [c.cur];
  }

  /** The states of a processor whose threads do nothing but yield or use up their time. */
  ghost predicate TakingTurns(cs: seq<Sched>) {
    forall j :: 0 <= j < |cs| - 1 ==> Rotated(cs[j], cs[j + 1])
  }

  /** Round robin: the j-th thread on the ready list runs after j switches, and after one switch per
      thread everybody is where they were. */
  lemma {:induction false} RoundRobin(cs: seq<Sched>, j: nat)
    requires TakingTurns(cs) && j < |cs| && j <= |cs[0].ready| + 1
    ensures var all := [cs[0].cur] + cs[0].ready; [cs[j].cur] + cs[j].ready == all[j..] + all[..j]
  {
    hide Rotated;
    var all := [cs[0].cur] + cs[0].ready;
    if j == 0 {
      assert all[0..] + all[..0] == all;
    } else {
      RoundRobin(cs, j - 1);
      assert Rotated(cs[j - 1], cs[j]);
      RotatedLine(cs[j - 1], cs[j]);
      NextInLine(all, cs[j - 1].cur, cs[j - 1].ready, j);
    }
  }

  lemma RotatedLine(c: Sched, d: Sched)
    requires Rotated(c, d)
    ensures [d.cur] + d.ready == c.ready + [c.cur]
  {
  }

  lemma NextInLine(all: seq<Tid>, cur: Tid, ready: seq<Tid>, j: nat)
    requires 0 < j <= |all| && [cur] + ready == all[j - 1..] + all[..j - 1]
    ensures ready + [cur] == all[j..] + all[..j]
  {
    var line := all[j - 1..] + all[..j - 1];
    assert cur == line[0] && ready == line[1..];
    assert line[1..] == all[j..] + all[..j - 1];
    assert all[..j] == all[..j - 1] + [all[j - 1]];
  }

  lemma YieldWorks(c: Sched)
    requires Settled(c)
    ensures var g := GiveUp(c);
      Entering(g) && !Stuck(g) && Settled(Schedule(g)) && Switched(g, Schedule(g))
  {
    var g := GiveUp(c);
    assert c.cur !in c.ready;
    ScheduleWorks(g);
  }
}
