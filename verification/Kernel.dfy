/** The scheduler and semaphore code as it runs, on the fields it changes; each method is one of
    the operations of Scheduler or one of the steps of Sync. */
module Kernel {
  import opened Scheduler
  import opened Sync

  class Cpu {
    var cur: Tid
    var idle: Tid
    var status: map<Tid, Status>
    var ready: seq<Tid>
    var sems: map<Sid, Sem>
    ghost var pc: map<Tid, Pc>
    ghost var locks: map<Sid, Lock>
    ghost var depth: map<(Tid, Sid), nat>

    ghost function Sch(): Sched
      reads this
    {
      Sched(cur, idle, status, ready)
    }

    ghost function State(): State
      reads this
    {
      Sync.State(Sch(), pc, sems, locks, depth)
    }

    /** From any state in which it may be entered, schedule() switches to a thread, never pops an
        empty list, and leaves exactly one thread RUNNING. */
    method Schedule()
      requires Entering(Sch())
      modifies this`cur, this`status, this`ready
      ensures !Stuck(old(Sch())) && Sch() == Scheduler.Schedule(old(Sch()))
      ensures Settled(Sch()) && Switched(old(Sch()), Sch())
      ensures old(status[cur]) == Running && old(ready) != [] ==>
        cur == old(ready)[0] && ready == old(ready)[1..] + [old(cur)]
      ensures old(status[cur]) == Running && old(ready) == [] ==> Sch() == old(Sch())
      ensures old(status[cur]) != Running ==>
        if old(ready) == [] then cur == idle && ready == [] else cur == old(ready)[0] && ready == old(ready)[1..]
      ensures old(status[cur]) != Running ==> status == old(status)[cur := Running]
    {
      ScheduleWorks(Sch());
      ScheduleOrder(Sch());
      if status[cur] == Running {
        ready := ready + [cur];
        status := status[cur := Ready];
      }
      if ready == [] {
        ThreadUnblock(idle);
      }
      var next := ready[0];
      ready := ready[1..];
      status := status[next := Running];
      cur := next;
    }

    method ThreadUnblock(t: Tid)
      requires t in status
      modifies this`status, this`ready
      ensures Sch() == Unblock(old(Sch()), t)
      ensures status == old(status)[t := Ready]
      ensures ready == if old(status[t]) == Ready then old(ready) else [t] + old(ready)
    {
      if status[t] != Ready {
        ready := [t] + ready;
        status := status[t := Ready];
      }
    }

    method ThreadBlock(why: Status)
      requires Settled(Sch()) && why !in {Running, Ready} && (cur == idle ==> why == Blocked)
      modifies this`cur, this`status, this`ready
      ensures !Stuck(Park(old(Sch()), why)) && Sch() == Scheduler.Schedule(Park(old(Sch()), why))
      ensures Settled(Sch()) && Switched(Park(old(Sch()), why), Sch())
      ensures if old(ready) == [] then cur == idle && ready == [] else cur == old(ready)[0] && ready == old(ready)[1..]
      ensures status == old(status)[old(cur) := why][cur := Running]
    {
      BlockWorks(Sch(), why);
      status := status[cur := why];
      Schedule();
    }

    method ThreadYield()
      requires Settled(Sch())
      modifies this`cur, this`status, this`ready
      ensures !Stuck(GiveUp(old(Sch()))) && Sch() == Scheduler.Schedule(GiveUp(old(Sch())))
      ensures Settled(Sch()) && Switched(GiveUp(old(Sch())), Sch())
      ensures old(ready) == [] ==> Sch() == old(Sch())
      ensures old(ready) != [] ==>
        && cur == old(ready)[0] && ready == old(ready)[1..] + [old(cur)]
        && status == old(status)[old(cur) := Ready][cur := Running]
    {
      YieldWorks(Sch());
      YieldOrder(Sch());
      ready := ready + [cur];
      status := status[cur := Ready];
      Schedule();
    }

    /** The body of the loop in sema_down and, when the loop is left, the rest of the call. */
    method SemaTest(s: Sid, ghost forLock: bool) returns (passed: bool)
      requires Settled(Sch()) && cur != idle && cur in pc && s in sems
      modifies this
      ensures Test(old(State()), State(), s, forLock) && Settled(Sch())
      ensures passed <==> old(sems[s].value) > 0
      ensures passed ==> sems == old(sems)[s := Sem(old(sems)[s].value - 1, old(sems)[s].waiters)]
      ensures passed ==> Sch() == old(Sch())
      ensures !passed ==> sems == old(sems)[s := Sem(0, old(sems)[s].waiters + [old(cur)])]
      ensures !passed ==> status == old(status)[old(cur) := Blocked][cur := Running]
    {
      passed := sems[s].value != 0;
      if passed {
        sems := sems[s := sems[s].(value := sems[s].value - 1)];
        pc := pc[cur := if forLock then AcqHolder(s) else Free];
      } else {
        sems := sems[s := sems[s].(waiters := sems[s].waiters + [cur])];
        pc := pc[cur := Retest(s, forLock)];
        ThreadBlock(Blocked);
      }
    }

    method SemaUp(s: Sid)
      requires Settled(Sch()) && cur in pc && s in sems
      requires sems[s].waiters != [] ==> sems[s].waiters[0] in status
      modifies this
      ensures Up(old(State()), State(), s)
      ensures cur == old(cur) && sems.Keys == old(sems).Keys
      ensures forall r :: r in sems && r != s ==> sems[r] == old(sems)[r]
      ensures sems[s].value == (old(sems)[s].value + 1) % 256
      ensures old(sems)[s].waiters == [] ==> sems[s].waiters == [] && Sch() == old(Sch())
      ensures old(sems)[s].waiters != [] ==>
        && old(sems)[s].waiters == [old(sems)[s].waiters[0]] + sems[s].waiters
        && status == old(status)[old(sems)[s].waiters[0] := Ready]
    {
      if sems[s].waiters != [] {
        var first := sems[s].waiters[0];
        sems := sems[s := sems[s].(waiters := sems[s].waiters[1..])];
        ThreadUnblock(first);
      }
      sems := sems[s := sems[s].(value := (sems[s].value + 1) % 256)];
      depth := if pc[cur] == RelUp(s) then depth[(cur, s) := 0] else depth;
      pc := pc[cur := Free];
    }
  }
}
