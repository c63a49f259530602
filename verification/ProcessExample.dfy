/** A run of fork, exit and wait after which init waits although a child of it hangs. */
module ProcessExample {
  import opened Bitmap
  import opened Scheduler
  import opened Processes
  import opened ProcessInv
  import opened ProcessRuns

  ghost predicate Reachable(k: State) { exists run :: IsRun(run) && run[|run| - 1] == k }

  lemma Reach(k: State, k': State, u: Uid)
    requires Reachable(k) && Step(k, k', u)
    ensures Reachable(k')
  {
    hide Init, Step;
    var run :| IsRun(run) && run[|run| - 1] == k;
    var more := run + [k'];
    forall i | 0 <= i < |more| - 1 ensures Next(more[i], more[i + 1]) {
      if i < |run| - 1 {
        assert Next(run[i], run[i + 1]);
      }
    }
    assert more[|more| - 1] == k';
  }

  lemma FirstClearBit(pids: seq<bool>, b: nat)
    requires b < |pids| && !pids[b] && forall i :: 0 <= i < b ==> pids[i]
    ensures FindRun(pids, 1) == b
  {
    RunOfOne(pids);
    assert ClearRun(pids, b, 1);
  }

  // ---------------------------------------------------------------- the run

  const ME := Pcb(1, -1, Running, 0, Home)
  const WAITS := Pcb(1, -1, Waiting, 0, InWait)

  function Both(p: Pcb, q: Pcb): map<Uid, Pcb> { map[0 := p, 1 := q] }

  function All(q: Pcb, r: Pcb, s: Pcb, n: nat): map<Uid, Pcb> {
    if n == 2 then map[0 := WAITS, 1 := q]
    else if n == 3 then map[0 := WAITS, 1 := q, 2 := r]
    else map[0 := WAITS, 1 := q, 2 := r, 3 := s]
  }

  /** n processes are there, m pids are taken, and processes 1, 2 and 3 are as given. */
  function St(q: Pcb, r: Pcb, s: Pcb, n: nat, m: nat): State {
    State(if n == 2 then [0, 1] else if n == 3 then [0, 1, 2] else [0, 1, 2, 3], All(q, r, s, n),
          seq(4, b => b < m), n, if s.phase == Exiting then map[3 := 7] else map[], [])
  }

  /** init forks process 1 and waits for it. */
  lemma FirstSteps()
    ensures Reachable(St(Pcb(2, 1, Ready, 0, Home), ME, ME, 2, 2))
  {
    hide Reachable;
    var k0 := State([0], map[0 := ME], seq(4, b => b < 1), 1, map[], []);
    var k1 := State([0], map[0 := Pcb(1, -1, Running, 0, Creating(2, 1))], seq(4, b => b < 2), 1, map[], []);
    var k2 := State([0, 1], Both(ME, Pcb(2, 1, Ready, 0, Home)), seq(4, b => b < 2), 2, map[], []);
    Starts(k0);
    FirstClearBit(k0.pids, 1);
    assert Begin(k0, k1, 0, true);
    Reach(k0, k1, 0);
    assert Finish(k1, k2, 0);
    Reach(k1, k2, 0);
    assert Matches(k2, Child, 1, 1) && k2.order[1] == 1 && Finds(k2, Child, 1, 1);
    assert Block(k2, St(Pcb(2, 1, Ready, 0, Home), ME, ME, 2, 2), 0, 1);
    Reach(k2, St(Pcb(2, 1, Ready, 0, Home), ME, ME, 2, 2), 0);
  }

  lemma Starts(k: State)
    requires k == State([0], map[0 := ME], seq(4, b => b < 1), 1, map[], [])
    ensures Reachable(k)
  {
    assert Matches(k, ByPid, 1, 0) && !FindsNone(k, ByPid, 1);
    assert Init(k);
    assert IsRun([k]) && [k][|[k]| - 1] == k;
  }

  /** Process 1 runs, forks process 2 and is switched out. */
  lemma SecondFork()
    ensures Reachable(St(Pcb(2, 1, Ready, 0, Home), Pcb(3, 2, Ready, 0, Home), ME, 3, 3))
  {
    hide Reachable;
    FirstSteps();
    var k0 := St(Pcb(2, 1, Ready, 0, Home), ME, ME, 2, 2);
    var k1 := St(Pcb(2, 1, Running, 0, Home), ME, ME, 2, 2);
    var k2 := St(Pcb(2, 1, Running, 0, Creating(3, 2)), ME, ME, 2, 3);
    var k3 := St(Pcb(2, 1, Running, 0, Home), Pcb(3, 2, Ready, 0, Home), ME, 3, 3);
    var k4 := St(Pcb(2, 1, Ready, 0, Home), Pcb(3, 2, Ready, 0, Home), ME, 3, 3);
    assert Switch(k0, k1, 1, Running);
    Reach(k0, k1, 1);
    FirstClearBit(k1.pids, 2);
    assert Begin(k1, k2, 1, true);
    Reach(k1, k2, 1);
    assert Finish(k2, k3, 1);
    Reach(k2, k3, 1);
    assert Switch(k3, k4, 1, Ready);
    Reach(k3, k4, 1);
  }

  /** Process 2 runs, forks process 3 and is switched out. */
  lemma ThirdFork()
    ensures Reachable(St(Pcb(2, 1, Ready, 0, Home), Pcb(3, 2, Ready, 0, Home), Pcb(4, 3, Ready, 0, Home), 4, 4))
  {
    hide Reachable;
    SecondFork();
    var q := Pcb(2, 1, Ready, 0, Home);
    var k0 := St(q, Pcb(3, 2, Ready, 0, Home), ME, 3, 3);
    var k1 := St(q, Pcb(3, 2, Running, 0, Home), ME, 3, 3);
    var k2 := St(q, Pcb(3, 2, Running, 0, Creating(4, 3)), ME, 3, 4);
    var k3 := St(q, Pcb(3, 2, Running, 0, Home), Pcb(4, 3, Ready, 0, Home), 4, 4);
    var k4 := St(q, Pcb(3, 2, Ready, 0, Home), Pcb(4, 3, Ready, 0, Home), 4, 4);
    assert Switch(k0, k1, 2, Running);
    Reach(k0, k1, 2);
    FirstClearBit(k1.pids, 3);
    assert Begin(k1, k2, 2, true);
    Reach(k1, k2, 2);
    assert Finish(k2, k3, 2);
    Reach(k2, k3, 2);
    assert Switch(k3, k4, 2, Ready);
    Reach(k3, k4, 2);
  }

  /** Process 3 runs and exits with status 7. */
  lemma ThirdExits()
    ensures Reachable(St(Pcb(2, 1, Ready, 0, Home), Pcb(3, 2, Ready, 0, Home), Pcb(4, 3, Running, 7, Exiting), 4, 4))
  {
    hide Reachable;
    ThirdFork();
    var q, r := Pcb(2, 1, Ready, 0, Home), Pcb(3, 2, Ready, 0, Home);
    var k0 := St(q, r, Pcb(4, 3, Ready, 0, Home), 4, 4);
    var k1 := St(q, r, Pcb(4, 3, Running, 0, Home), 4, 4);
    var k2 := St(q, r, Pcb(4, 3, Running, 7, Exiting), 4, 4);
    assert Switch(k0, k1, 3, Running);
    Reach(k0, k1, 3);
    assert Adopted(k1, 4) == k1.procs;
    assert Exit(k1, k2, 3, 7);
    Reach(k1, k2, 3);
  }

  /** It hangs, and process 2 runs. */
  lemma ThirdHangs()
    ensures Reachable(St(Pcb(2, 1, Ready, 0, Home), Pcb(3, 2, Running, 0, Home), Pcb(4, 3, Hanging, 7, Exiting), 4, 4))
  {
    hide Reachable;
    ThirdExits();
    var q, r := Pcb(2, 1, Ready, 0, Home), Pcb(3, 2, Ready, 0, Home);
    var k2 := St(q, r, Pcb(4, 3, Running, 7, Exiting), 4, 4);
    var k3 := St(q, r, Pcb(4, 3, Hanging, 7, Exiting), 4, 4);
    var k4 := St(q, Pcb(3, 2, Running, 0, Home), Pcb(4, 3, Hanging, 7, Exiting), 4, 4);
    assert Matches(k2, ByPid, 3, 2) && k2.order[2] == 2 && Finds(k2, ByPid, 3, 2);
    assert Hang(k2, k3, 3, 2);
    Reach(k2, k3, 3);
    assert Switch(k3, k4, 2, Running);
    Reach(k3, k4, 2);
  }

  // ---------------------------------------------------------------- the last step

  /** In a run from the start, init waits for process 1, whose child 2 exits while its own child 3 hangs:
      init goes on waiting although a child of it hangs. */
  lemma OverlookedExample()
    ensures exists k, k' :: Reachable(k) && Waiters(k, {}) && Step(k, k', 2) && !Waiters(k', {})
  {
    hide Inv, Waiters, Overlooks, Exit, Reachable;
    ThirdHangs();
    var k := St(Pcb(2, 1, Ready, 0, Home), Pcb(3, 2, Running, 0, Home), Pcb(4, 3, Hanging, 7, Exiting), 4, 4);
    ReachableHolds(k);
    ExampleWaits(k);
    var qs := Adopted(k, 3);
    var k' := k.(procs := qs[2 := qs[2].(exitStatus := 5, phase := Exiting)], exits := k.exits[2 := 5]);
    ExampleExits(k, k');
    OverlookedExactly(k, k', 2);
  }

  ghost predicate Example(k: State) {
    && k.procs == map[0 := WAITS, 1 := Pcb(2, 1, Ready, 0, Home),
                      2 := Pcb(3, 2, Running, 0, Home), 3 := Pcb(4, 3, Hanging, 7, Exiting)]
    && k == State([0, 1, 2, 3], k.procs, seq(4, b => b < 4), 4, map[3 := 7], [])
  }

  lemma ExampleWaits(k: State)
    requires Example(k)
    ensures Waiters(k, {}) && HangsUnder(k, 2, 3)
  {
    assert IsParent(k, 0, 1);
  }

  lemma ReachableHolds(k: State)
    requires Reachable(k)
    ensures Inv(k)
  {
    hide Inv, Init, Step;
    var run :| IsRun(run) && run[|run| - 1] == k;
    RunKeepsInv(run, |run| - 1);
  }

  lemma ExampleExits(k: State, k': State)
    requires 2 in k.procs && 0 in k.procs && k.procs[2] == Pcb(3, 2, Running, 0, Home) && k.procs[0].status == Waiting
      && HangsUnder(k, 2, 3)
    requires var qs := Adopted(k, 3);
      k' == k.(procs := qs[2 := qs[2].(exitStatus := 5, phase := Exiting)], exits := k.exits[2 := 5])
    ensures Step(k, k', 2) && Overlooks(k, k', 2)
  {
    assert Exit(k, k', 2, 5);
  }
}
