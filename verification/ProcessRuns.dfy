/** Who waits, who was reaped, and safety over every run of fork, exit and wait. */
module ProcessRuns {
  import opened Bitmap
  import opened Scheduler
  import opened Processes
  import opened ProcessInv

  // ---------------------------------------------------------------- who waits

  lemma WaitersSame(k: State, k': State, spared: set<Uid>)
    requires Waiters(k, spared) && SameKin(k, k')
    requires forall v :: v in k.procs && k'.procs[v].status == Waiting ==> k.procs[v].status == Waiting
    requires forall v :: v in k.procs && k'.procs[v].status == Hanging ==> k.procs[v].status == Hanging
    ensures Waiters(k', spared)
  {
    forall u, c | HangsUnder(k', u, c) ensures HangsUnder(k, u, c) {
    }
    forall u | u in k'.procs && k'.procs[u].status == Waiting ensures HasChild(k', u) {
      var c :| IsParent(k, u, c);
      assert IsParent(k', u, c);
    }
  }

  lemma WaitersQuiet(k: State, k': State, spared: set<Uid>, u: Uid, c: Uid, s: Status, fork: bool)
    requires Waiters(k, spared)
    requires Switch(k, k', u, s) || Begin(k, k', u, fork) || Collect(k, k', u, c) || Childless(k, k', u)
      || Release(k, k', u)
    ensures Waiters(k', spared)
  {
    hide FindRun, FindsNone, Finds;
    KinKept(k, k', u, c, s, fork);
    if Collect(k, k', u, c) {
      FindsIsThere(k, HangingChild, k.procs[u].pid, c);
    }
    WaitersSame(k, k', spared);
  }

  /** A process that blocks in sys_wait has a child and none that hangs. */
  lemma WaitersBlock(k: State, k': State, spared: set<Uid>, u: Uid, c: Uid)
    requires Table(k) && Waiters(k, spared) && Block(k, k', u, c)
    ensures Waiters(k', spared)
  {
    hide Finds, NoRepeats;
    FindsIsThere(k, Child, k.procs[u].pid, c);
    assert IsParent(k', u, c);
    forall v, d | HangsUnder(k', v, d) ensures HangsUnder(k, v, d) && v != u {
      assert d in k.order && !Matches(k, HangingChild, k.procs[u].pid, d);
    }
    forall v | v in k'.procs && k'.procs[v].status == Waiting ensures HasChild(k', v) {
      if v != u {
        var d :| IsParent(k, v, d);
        assert IsParent(k', v, d);
      }
    }
  }

  /** The only process a hanging process could leave waiting for it is its parent, who is woken. */
  lemma WaitersHang(k: State, k': State, spared: set<Uid>, u: Uid, p: Uid)
    requires Pids(k) && Waiters(k, spared) && Hang(k, k', u, p)
    ensures Waiters(k', spared)
  {
    hide Finds;
    FindsIsThere(k, ByPid, k.procs[u].parent, p);
    KinKept(k, k', u, p, Ready, false);
    forall v, d | HangsUnder(k', v, d) ensures HangsUnder(k, v, d) || k'.procs[v].status != Waiting {
      if d == u {
        SameParent(k, v, p, u);
      }
    }
    forall v | v in k'.procs && k'.procs[v].status == Waiting ensures HasChild(k', v) {
      var d :| IsParent(k, v, d);
      assert IsParent(k', v, d);
    }
  }

  lemma WaitersFinish(k: State, k': State, spared: set<Uid>, u: Uid)
    requires Table(k) && Waiters(k, spared) && Finish(k, k', u)
    ensures Waiters(k', spared)
  {
    hide NoRepeats;
    forall v, d | HangsUnder(k', v, d) ensures v == k.next || HangsUnder(k, v, d) {
    }
    forall v | v in k'.procs && k'.procs[v].status == Waiting ensures HasChild(k', v) {
      var d :| IsParent(k, v, d);
      assert IsParent(k', v, d);
    }
  }

  /** The children of an exiting process pass to init, and nothing else changes. */
  lemma ExitMoves(k: State, k': State, u: Uid, status: int, v: Uid, d: Uid)
    requires Table(k) && Pids(k) && Exit(k, k', u, status)
    ensures HangsUnder(k', v, d) <==>
      if v == INIT then HangsUnder(k, v, d) || HangsUnder(k, u, d) else v != u && HangsUnder(k, v, d)
  {
    hide NoRepeats;
    ExitInPlace(k, k', u, status);
    assert Claims(k, INIT, 1) && Claims(k, u, k.procs[u].pid);
    assert v in k.procs ==> Claims(k, v, k.procs[v].pid);
  }

  lemma WaitersExit(k: State, k': State, spared: set<Uid>, u: Uid, status: int)
    requires Table(k) && Pids(k) && Waiters(k, spared) && Exit(k, k', u, status)
    requires INIT in spared || k.procs[INIT].status != Waiting || forall c :: !HangsUnder(k, u, c)
    ensures Waiters(k', spared)
  {
    hide NoRepeats;
    ExitInPlace(k, k', u, status);
    forall v, d | HangsUnder(k', v, d) && v !in spared ensures k'.procs[v].status != Waiting {
      ExitMoves(k, k', u, status, v, d);
    }
    forall v | v in k'.procs && k'.procs[v].status == Waiting ensures HasChild(k', v) {
      var d :| IsParent(k, v, d);
      assert Claims(k, v, k.procs[v].pid) && Claims(k, u, k.procs[u].pid);
      assert IsParent(k', v, d);
    }
  }

  lemma WaitersUnlist(k: State, k': State, spared: set<Uid>, u: Uid, i: nat)
    requires Pids(k) && Family(k) && Waiters(k, spared) && Unlist(k, k', u, i)
    ensures Waiters(k', spared)
  {
    var c := k.procs[u].phase.corpse;
    assert PhaseOk(k, u);
    forall v, d | HangsUnder(k', v, d) ensures HangsUnder(k, v, d) {
    }
    forall v | v in k'.procs && k'.procs[v].status == Waiting ensures HasChild(k', v) {
      var d :| IsParent(k, v, d);
      if d == c {
        SameParent(k, u, v, c);
      }
      assert IsParent(k', v, d);
    }
  }

  /** init waits, and the process that exits has a child that hangs. */
  ghost predicate Overlooks(k: State, k': State, u: Uid) {
    && INIT in k.procs && k.procs[INIT].status == Waiting
    && (exists x :: Exit(k, k', u, x)) && (exists c :: HangsUnder(k, u, c))
  }

  lemma WaitersKept(k: State, k': State, spared: set<Uid>, u: Uid)
    requires Inv(k) && Waiters(k, spared) && Step(k, k', u) && (INIT in spared || !Overlooks(k, k', u))
    ensures Waiters(k', spared)
  {
    hide Pids, Waiters, Log, Family, Switch, Begin, Finish, Exit, Hang, Collect, Childless, Block, Unlist, Release;
    if Finish(k, k', u) {
      WaitersFinish(k, k', spared, u);
    } else if x :| Exit(k, k', u, x) {
      WaitersExit(k, k', spared, u, x);
    } else if i :| Unlist(k, k', u, i) {
      WaitersUnlist(k, k', spared, u, i);
    } else if c :| Hang(k, k', u, c) || Collect(k, k', u, c) || Block(k, k', u, c) {
      if Hang(k, k', u, c) {
        WaitersHang(k, k', spared, u, c);
      } else if Block(k, k', u, c) {
        WaitersBlock(k, k', spared, u, c);
      } else {
        WaitersQuiet(k, k', spared, u, c, Ready, false);
      }
    } else if s :| Switch(k, k', u, s) {
      WaitersQuiet(k, k', spared, u, 0, s, false);
    } else {
      WaitersQuiet(k, k', spared, u, 0, Ready, Begin(k, k', u, true));
    }
  }

  /** A step leaves some process, init included, waiting although a child of it hangs, exactly
      when it is the adoption of a hanging child by an init that waits: nothing wakes init then. */
  lemma OverlookedExactly(k: State, k': State, u: Uid)
    requires Inv(k) && Waiters(k, {}) && Step(k, k', u)
    ensures Waiters(k', {}) <==> !Overlooks(k, k', u)
  {
    hide Pids, Log, Family, Step, Exit;
    if Overlooks(k, k', u) {
      var x :| Exit(k, k', u, x);
      var c :| HangsUnder(k, u, c);
      ExitInPlace(k, k', u, x);
      ExitMoves(k, k', u, x, INIT, c);
      InitStays(k, k', u, x);
    } else {
      WaitersKept(k, k', {}, u);
    }
  }

  lemma InitStays(k: State, k': State, u: Uid, status: int)
    requires Table(k) && Exit(k, k', u, status)
    ensures INIT in k'.procs && k'.procs[INIT].status == k.procs[INIT].status
  {
  }

  // ---------------------------------------------------------------- who was reaped

  lemma SameReaped(k: State, k': State)
    requires k'.reaped == k.reaped
    ensures forall u :: WasReaped(k', u) <==> WasReaped(k, u)
  {
    forall u ensures WasReaped(k', u) <==> WasReaped(k, u) {
    }
  }

  lemma OneMoreReaped(k: State, k': State, r: Reaped)
    requires k'.reaped == k.reaped + [r]
    ensures forall u :: WasReaped(k', u) <==> WasReaped(k, u) || u == r.child
  {
    forall u ensures WasReaped(k', u) <==> WasReaped(k, u) || u == r.child {
      if WasReaped(k, u) {
        var i :| 0 <= i < |k.reaped| && k.reaped[i].child == u;
        assert k'.reaped[i].child == u;
      }
      assert k'.reaped[|k.reaped|].child == r.child;
    }
  }

  lemma ReapedDidExit(k: State, u: Uid)
    requires Log(k) && WasReaped(k, u)
    ensures u in k.exits
  {
  }

  lemma LogSame(k: State, k': State)
    requires Log(k) && k'.next >= k.next && k'.exits == k.exits && k'.reaped == k.reaped
      && k'.procs.Keys == k.procs.Keys
    requires forall v :: v in k.procs ==> k'.procs[v].exitStatus == k.procs[v].exitStatus
    requires forall v :: v in k.procs ==> (k'.procs[v].phase == Exiting <==> k.procs[v].phase == Exiting)
    requires forall v :: v in k.procs ==> (k'.procs[v].status == Died <==> k.procs[v].status == Died)
    ensures Log(k')
  {
    hide WasReaped;
    SameReaped(k, k');
    forall v ensures ExitOk(k', v) {
      assert ExitOk(k, v);
    }
  }

  lemma LogQuiet(k: State, k': State, u: Uid, c: Uid, s: Status, fork: bool)
    requires Log(k)
    requires Switch(k, k', u, s) || Begin(k, k', u, fork) || Childless(k, k', u) || Block(k, k', u, c)
      || Release(k, k', u)
    ensures Log(k')
  {
    hide FindRun, FindsNone, Finds, WasReaped;
    LogSame(k, k');
  }

  lemma LogHang(k: State, k': State, u: Uid, p: Uid)
    requires Log(k) && Hang(k, k', u, p)
    ensures Log(k')
  {
    hide Finds, WasReaped;
    FindsIsThere(k, ByPid, k.procs[u].parent, p);
    LogSame(k, k');
  }

  lemma LogFinish(k: State, k': State, u: Uid)
    requires Table(k) && Log(k) && Finish(k, k', u)
    ensures Log(k')
  {
    hide NoRepeats, WasReaped;
    SameReaped(k, k');
    if WasReaped(k, k.next) {
      ReapedDidExit(k, k.next);
    }
    assert ExitOk(k, k.next);
    forall v ensures ExitOk(k', v) {
      assert ExitOk(k, v);
    }
  }

  lemma LogExit(k: State, k': State, u: Uid, status: int)
    requires Table(k) && Pids(k) && Family(k) && Log(k) && Exit(k, k', u, status)
    ensures Log(k')
  {
    hide NoRepeats, WasReaped, Pids, IsParent, HasParent, InPlace, Int8;
    ExitInPlace(k, k', u, status);
    assert PhaseOk(k, u);
    SameReaped(k, k');
    if WasReaped(k, u) {
      ReapedDidExit(k, u);
    }
    assert ExitOk(k, u);
    forall v ensures ExitOk(k', v) {
      assert ExitOk(k, v);
    }
  }

  lemma LogCollect(k: State, k': State, u: Uid, c: Uid)
    requires Family(k) && Log(k) && Collect(k, k', u, c)
    ensures Log(k')
  {
    hide Finds, WasReaped, IsParent, HasParent;
    FindsIsThere(k, HangingChild, k.procs[u].pid, c);
    assert PhaseOk(k, c) && PhaseOk(k, u);
    OneMoreReaped(k, k', k'.reaped[|k.reaped|]);
    assert ExitOk(k, c) && !WasReaped(k, c);
    NotAmong(k, c);
    forall v ensures ExitOk(k', v) {
      assert ExitOk(k, v);
    }
  }

  lemma NotAmong(k: State, c: Uid)
    requires !WasReaped(k, c)
    ensures forall i :: 0 <= i < |k.reaped| ==> k.reaped[i].child != c
  {
  }

  lemma LogUnlist(k: State, k': State, u: Uid, i: nat)
    requires Family(k) && Log(k) && Unlist(k, k', u, i)
    ensures Log(k')
  {
    hide WasReaped;
    assert PhaseOk(k, u);
    SameReaped(k, k');
    forall v ensures ExitOk(k', v) {
      assert ExitOk(k, v);
    }
  }

  lemma LogKept(k: State, k': State, u: Uid)
    requires Inv(k) && Step(k, k', u)
    ensures Log(k')
  {
    hide Table, Pids, Waiters, Log, Family, Switch, Begin, Finish, Exit, Hang, Collect, Childless, Block, Unlist,
      Release;
    if Finish(k, k', u) {
      LogFinish(k, k', u);
    } else if x :| Exit(k, k', u, x) {
      LogExit(k, k', u, x);
    } else if i :| Unlist(k, k', u, i) {
      LogUnlist(k, k', u, i);
    } else if c :| Hang(k, k', u, c) || Collect(k, k', u, c) || Block(k, k', u, c) {
      if Hang(k, k', u, c) {
        LogHang(k, k', u, c);
      } else if Collect(k, k', u, c) {
        LogCollect(k, k', u, c);
      } else {
        LogQuiet(k, k', u, c, Ready, false);
      }
    } else if s :| Switch(k, k', u, s) {
      LogQuiet(k, k', u, 0, s, false);
    } else {
      LogQuiet(k, k', u, 0, Ready, Begin(k, k', u, true));
    }
  }

  // ---------------------------------------------------------------- every run

  ghost predicate Next(k: State, k': State) { exists u :: Step(k, k', u) }

  ghost predicate IsRun(run: seq<State>) {
    run != [] && Init(run[0]) && forall i :: 0 <= i < |run| - 1 ==> Next(run[i], run[i + 1])
  }

  lemma NobodyReaped(k: State, u: Uid)
    requires k.reaped == []
    ensures !WasReaped(k, u)
  {
  }

  lemma InitHolds(k: State)
    requires Init(k)
    ensures Inv(k)
  {
    hide Pids, Log, Init;
    InitPids(k);
    InitLog(k);
    InitFamily(k);
  }

  lemma InitPids(k: State)
    requires Init(k)
    ensures Pids(k)
  {
    hide NoRepeats;
    forall b | 0 <= b < |k.pids| && k.pids[b] ensures Claimed(k, b + 1) {
      var u :| u in k.order && Matches(k, ByPid, b + 1, u);
      assert Claims(k, u, b + 1);
    }
    forall u, x | Claims(k, u, x) ensures 1 <= x <= |k.pids| && k.pids[x - 1] {
      assert u in k.order && Matches(k, ByPid, x - 1 + 1, u);
      assert !FindsNone(k, ByPid, x - 1 + 1);
    }
  }

  lemma InitLog(k: State)
    requires Init(k)
    ensures Log(k)
  {
    hide NoRepeats, WasReaped, FindsNone;
    forall u ensures !WasReaped(k, u) {
      NobodyReaped(k, u);
    }
  }

  lemma InitFamily(k: State)
    requires Init(k)
    ensures Table(k) && Family(k) && Waiters(k, {INIT})
  {
    hide NoRepeats, FindsNone;
  }

  lemma {:induction false} RunKeepsInv(run: seq<State>, i: nat)
    requires IsRun(run) && i < |run|
    ensures Inv(run[i])
  {
    hide Inv, Init, Step;
    if i == 0 {
      InitHolds(run[0]);
    } else {
      RunKeepsInv(run, i - 1);
      assert Next(run[i - 1], run[i]);
      var u :| Step(run[i - 1], run[i], u);
      StepKeepsInv(run[i - 1], run[i], u);
    }
  }

  lemma StepKeepsInv(k: State, k': State, u: Uid)
    requires Inv(k) && Step(k, k', u)
    ensures Inv(k')
  {
    hide Table, Pids, Family, Waiters, Log, Step, Overlooks;
    TableKept(k, k', u);
    PidsKept(k, k', u);
    FamilyKept(k, k', u);
    WaitersKept(k, k', {INIT}, u);
    LogKept(k, k', u);
  }

  /** In every run, a process that exits finds its parent by pid, and the parent is alive and has
      not begun to exit: pid2thread does not return NULL and the status read is that of the parent. */
  lemma ParentIsThere(run: seq<State>, i: nat, u: Uid)
    requires IsRun(run) && i < |run| && u in run[i].procs && run[i].procs[u].parent != -1
    ensures exists p :: Finds(run[i], ByPid, run[i].procs[u].parent, p) && Active(run[i], p)
  {
    hide NoRepeats, Step;
    RunKeepsInv(run, i);
    var k := run[i];
    assert HasParent(k, u);
    var p :| IsParent(k, p, u) && Active(k, p);
    PidFinds(k, p);
  }

  lemma PidFinds(k: State, p: Uid)
    requires Table(k) && Pids(k) && p in k.procs
    ensures Finds(k, ByPid, k.procs[p].pid, p)
  {
    var x := k.procs[p].pid;
    assert p in k.order;
    var i :| 0 <= i < |k.order| && k.order[i] == p;
    assert Claims(k, p, x);
    forall j | 0 <= j < i ensures !Matches(k, ByPid, x, k.order[j]) {
      assert k.order[j] != k.order[i];
      assert Matches(k, ByPid, x, k.order[j]) ==> Claims(k, k.order[j], x);
    }
  }

  /** In every run a waiting process has a child, and unless it is init no child of it hangs. */
  lemma WaitIsJustified(run: seq<State>, i: nat, u: Uid)
    requires IsRun(run) && i < |run| && u in run[i].procs && run[i].procs[u].status == Waiting
    ensures HasChild(run[i], u)
    ensures u != INIT ==> forall c :: !HangsUnder(run[i], u, c)
  {
    RunKeepsInv(run, i);
  }

  /** The pid bitmap is exact, so a pid is used again only after its process was reaped. */
  lemma PidsAreExact(run: seq<State>, i: nat, x: Pid)
    requires IsRun(run) && i < |run| && 1 <= x <= |run[i].pids|
    ensures run[i].pids[x - 1] <==> Claimed(run[i], x)
    ensures forall u, v :: Claims(run[i], u, x) && Claims(run[i], v, x) ==> u == v
  {
    hide Table, Family, Waiters, Log, Step;
    RunKeepsInv(run, i);
    assert run[i].pids[x - 1] ==> Claimed(run[i], x - 1 + 1);
  }
}
