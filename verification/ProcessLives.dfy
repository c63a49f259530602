/** The life of a process over a run: the pid it keeps, the parent that fork gives it, and the sys_wait that
    answers for it. */
module ProcessLives {
  import opened Bitmap
  import opened Scheduler
  import opened Processes
  import opened ProcessInv
  import opened ProcessRuns

  // ---------------------------------------------------------------- one step

  /** What no step changes: pids, who was there before, and a fork that is under way. */
  ghost predicate Carried(k: State, k': State, v: Uid) {
    && k'.next >= k.next && (v in k'.procs ==> v in k.procs || v == k.next)
    && (v in k.procs && v in k'.procs ==> k'.procs[v].pid == k.procs[v].pid)
    && (v in k.procs && v in k'.procs && k.procs[v].phase.Creating? && k'.procs[v].phase.Creating? ==>
          k'.procs[v].phase == k.procs[v].phase)
  }

  /** The answer of sys_wait to its caller: the pid and the status of a child of the caller that hangs. */
  ghost predicate Answers(k: State, r: Reaped) {
    && r.parent in k.procs && r.child in k.procs && k.procs[r.child].status == Hanging
    && k.procs[r.child].parent == k.procs[r.parent].pid
    && r.pid == k.procs[r.child].pid && r.status == k.procs[r.child].exitStatus
  }

  ghost predicate Logged(k: State, k': State) {
    k'.reaped == k.reaped || (exists r :: k'.reaped == k.reaped + [r] && Answers(k, r))
  }

  lemma QuietCarries(k: State, k': State, u: Uid, c: Uid, v: Uid)
    requires Table(k)
    requires Hang(k, k', u, c) || Collect(k, k', u, c) || Block(k, k', u, c)
    ensures Carried(k, k', v) && Logged(k, k')
  {
    hide Finds, FindsNone, NoRepeats;
    if Hang(k, k', u, c) {
      FindsIsThere(k, ByPid, k.procs[u].parent, c);
    } else if Collect(k, k', u, c) {
      FindsIsThere(k, HangingChild, k.procs[u].pid, c);
      assert Answers(k, Reaped(u, c, k.procs[c].pid, k.procs[c].exitStatus));
    }
  }

  lemma StepCarries(k: State, k': State, u: Uid, v: Uid)
    requires Table(k) && Step(k, k', u)
    ensures Carried(k, k', v) && Logged(k, k')
  {
    hide Hang, Collect, Block, FindsNone, Finds, NoRepeats, FindRun;
    if c :| Hang(k, k', u, c) || Collect(k, k', u, c) || Block(k, k', u, c) {
      QuietCarries(k, k', u, c, v);
    }
  }

  lemma NextCarries(run: seq<State>, i: nat, v: Uid)
    requires IsRun(run) && i < |run| - 1
    ensures Carried(run[i], run[i + 1], v) && Logged(run[i], run[i + 1]) && Table(run[i])
  {
    hide Step, Init, Pids, Family, Waiters, Log, Table, Carried, Logged;
    RunKeepsInv(run, i);
    assert Next(run[i], run[i + 1]);
    var u :| Step(run[i], run[i + 1], u);
    StepCarries(run[i], run[i + 1], u, v);
  }

  // ---------------------------------------------------------------- a pid is for life

  /** Who is gone does not come back. */
  lemma {:induction false} GoneForGood(run: seq<State>, i: nat, j: nat, v: Uid)
    requires IsRun(run) && i <= j < |run| && v < run[i].next && v !in run[i].procs
    ensures v < run[j].next && v !in run[j].procs
  {
    hide Init, Next;
    if i < j {
      GoneForGood(run, i, j - 1, v);
      NextCarries(run, j - 1, v);
    }
  }

  /** In every run a process has one pid from beginning to end. */
  lemma {:induction false} PidIsForLife(run: seq<State>, i: nat, j: nat, v: Uid)
    requires IsRun(run) && i <= j < |run| && v in run[i].procs && v in run[j].procs
    ensures run[j].procs[v].pid == run[i].procs[v].pid
    decreases j - i
  {
    hide Init, Next;
    if i < j {
      NextCarries(run, i, v);
      if v !in run[i + 1].procs {
        GoneForGood(run, i + 1, j, v);
      }
      PidIsForLife(run, i + 1, j, v);
    }
  }

  // ---------------------------------------------------------------- fork

  /** u stays in the fork that it began. */
  lemma {:induction false} ForkStays(run: seq<State>, i: nat, j: nat, u: Uid)
    requires IsRun(run) && i <= j < |run|
    requires forall m :: i <= m <= j ==> u in run[m].procs && run[m].procs[u].phase.Creating?
    ensures run[j].procs[u].phase == run[i].procs[u].phase
  {
    hide Init, Next;
    if i < j {
      ForkStays(run, i, j - 1, u);
      NextCarries(run, j - 1, u);
    }
  }

  lemma BeginsWith(k: State, k': State, u: Uid, fork: bool)
    requires Begin(k, k', u, fork)
    ensures u in k.procs && u in k'.procs && k'.procs[u].pid == k.procs[u].pid && k'.procs[u].phase.Creating?
    ensures var p := k'.procs[u].phase;
      IsLeftmost(k.pids, 1, p.child - 1) && p.parent == if fork then k.procs[u].pid else -1
  {
    hide IsLeftmost;
    assert IsLeftmost(k.pids, 1, FindRun(k.pids, 1));
  }

  lemma FinishLists(k: State, k': State, u: Uid)
    requires Table(k) && Finish(k, k', u)
    ensures k.next !in k.procs && k.next in k'.procs && u in k.procs && u in k'.procs && k.procs[u].phase.Creating?
    ensures var child, p := k'.procs[k.next], k.procs[u].phase;
      child.pid == p.child && child.parent == p.parent && child.status == Ready && child.phase == Home
    ensures k'.order == k.order + [k.next] && k'.procs[u].pid == k.procs[u].pid
  {
    hide NoRepeats;
  }

  lemma NobodyIsMinusOne(k: State, p: Uid)
    requires Pids(k) && p in k.procs
    ensures k.procs[p].pid != -1
  {
    assert Claims(k, p, k.procs[p].pid);
  }

  /** In every run the process that fork lists has the lowest pid that was free when fork began, is READY,
      and is a child of the process that called fork; a thread that the kernel starts is nobody's child. */
  lemma ForkedChild(run: seq<State>, i: nat, j: nat, u: Uid, fork: bool)
    requires IsRun(run) && i < j < |run| - 1
    requires Begin(run[i], run[i + 1], u, fork) && Finish(run[j], run[j + 1], u)
    requires forall m :: i < m <= j ==> u in run[m].procs && run[m].procs[u].phase.Creating?
    ensures var k, c := run[j + 1], run[j].next;
      && c !in run[j].procs && c in k.procs && u in k.procs && k.order == run[j].order + [c]
      && IsLeftmost(run[i].pids, 1, k.procs[c].pid - 1) && k.procs[c].status == Ready
      && (if fork then IsParent(k, u, c) else forall p :: !IsParent(k, p, c))
  {
    hide IsRun, Begin, Finish, Table, Pids, Family, Waiters, Log, IsLeftmost, Carried, Logged;
    BeginsWith(run[i], run[i + 1], u, fork);
    ForkStays(run, i + 1, j, u);
    NextCarries(run, j, u);
    FinishLists(run[j], run[j + 1], u);
    PidIsForLife(run, i, j, u);
    RunKeepsInv(run, j + 1);
    var k := run[j + 1];
    forall p | p in k.procs ensures k.procs[p].pid != -1 {
      NobodyIsMinusOne(k, p);
    }
  }

  // ---------------------------------------------------------------- sys_wait

  ghost predicate AnsweredBefore(run: seq<State>, i: nat, r: Reaped)
    requires i <= |run|
  {
    exists j :: 0 <= j < i && Answers(run[j], r)
  }

  /** In every run, each answer of sys_wait is the pid and the status of a child of the caller that hung
      when it was given. */
  lemma {:induction false} WaitAnswers(run: seq<State>, i: nat, a: nat)
    requires IsRun(run) && i < |run| && a < |run[i].reaped|
    ensures AnsweredBefore(run, i, run[i].reaped[a])
  {
    hide Next, Answers;
    if i > 0 {
      NextCarries(run, i - 1, 0);
      if a < |run[i - 1].reaped| {
        WaitAnswers(run, i - 1, a);
        var j :| 0 <= j < i - 1 && Answers(run[j], run[i - 1].reaped[a]);
        assert run[i].reaped[a] == run[i - 1].reaped[a];
      } else {
        var r :| run[i].reaped == run[i - 1].reaped + [r] && Answers(run[i - 1], r);
        assert run[i].reaped[a] == r;
      }
    }
  }

  /** In every run each exit is reaped at most once, by the process that was then its parent, and answered
      for with its own pid and its own status, as an int8_t; an exit that was not reaped yet is still on
      the list, with a parent that can reap it. */
  lemma ReapedOnce(run: seq<State>, i: nat)
    requires IsRun(run) && i < |run|
    ensures var k := run[i];
      && (forall a, b :: 0 <= a < b < |k.reaped| ==> k.reaped[a].child != k.reaped[b].child)
      && (forall a :: 0 <= a < |k.reaped| ==>
        k.reaped[a].child in k.exits && k.reaped[a].status == Int8(k.exits[k.reaped[a].child]))
      && (forall a :: 0 <= a < |k.reaped| ==> AnsweredBefore(run, i, k.reaped[a]))
      && (forall u :: u in k.exits && !WasReaped(k, u) ==>
        u in k.procs && k.procs[u].status != Died && k.procs[u].exitStatus == Int8(k.exits[u]))
      && (forall u :: u in k.procs && k.procs[u].parent != -1 ==> HasParent(k, u))
  {
    hide AnsweredBefore, IsRun, Table, Pids, Waiters, PhaseOk;
    RunKeepsInv(run, i);
    var k := run[i];
    forall a | 0 <= a < |k.reaped| ensures AnsweredBefore(run, i, k.reaped[a]) {
      WaitAnswers(run, i, a);
    }
    forall u | u in k.exits && !WasReaped(k, u)
      ensures u in k.procs && k.procs[u].status != Died && k.procs[u].exitStatus == Int8(k.exits[u]) {
      assert ExitOk(k, u);
    }
  }

  /** So the pid answered is the one that the child had all its life. */
  lemma AnswerIsPid(run: seq<State>, i: nat, a: nat, m: nat)
    requires IsRun(run) && i < |run| && a < |run[i].reaped| && m < i && run[i].reaped[a].child in run[m].procs
    ensures run[i].reaped[a].pid == run[m].procs[run[i].reaped[a].child].pid
  {
    hide IsRun;
    WaitAnswers(run, i, a);
    var r := run[i].reaped[a];
    var j :| 0 <= j < i && Answers(run[j], r);
    if j <= m {
      PidIsForLife(run, j, m, r.child);
    } else {
      PidIsForLife(run, m, j, r.child);
    }
  }
}
