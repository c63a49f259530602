/** sys_wait and sys_exit as they run on thread_all_list; each method is a step of Processes. */
module ProcessTable {
  import opened Scheduler
  import opened Processes

  /** How a turn of the loop in sys_wait ends: a child reaped, -1, or blocked. */
  datatype Turn = Got(pid: Pid, status: int) | Failed | Slept

  class ProcTable {
    var order: seq<Uid>
    var procs: map<Uid, Pcb>
    ghost var pids: seq<bool>
    ghost var next: Uid
    ghost var exits: map<Uid, int>
    ghost var reaped: seq<Reaped>

    ghost function K(): State
      reads this
    {
      State(order, procs, pids, next, exits, reaped)
    }

    ghost predicate Listed()
      reads this
    {
      forall u :: u in order <==> u in procs
    }

    /** list_traversal with one of the three searching callbacks. */
    method Traverse(q: Query, pid: Pid) returns (found: bool, u: Uid)
      requires Listed()
      ensures if found then Finds(K(), q, pid, u) else FindsNone(K(), q, pid)
    {
      var i := 0;
      while i < |order|
        invariant 0 <= i <= |order|
        invariant forall j :: 0 <= j < i ==> !Matches(K(), q, pid, order[j])
      {
        var p := procs[order[i]];
        var hit := match q
          case ByPid => p.pid == pid
          case Child => p.parent == pid
          case HangingChild => p.parent == pid && p.status == Hanging;
        if hit {
          return true, order[i];
        }
        i := i + 1;
      }
      return false, 0;
    }

    /** list_traversal with init_adopt_a_child. */
    method Adopt(pid: Pid)
      requires Listed()
      modifies this`procs
      ensures procs == Adopted(old(K()), pid)
    {
      var i := 0;
      while i < |order|
        invariant 0 <= i <= |order| && procs.Keys == old(procs).Keys
        invariant forall j :: 0 <= j < i ==> procs[order[j]] == Adopted(old(K()), pid)[order[j]]
        invariant forall u :: u in procs ==> procs[u] == old(procs)[u] || procs[u] == Adopted(old(K()), pid)[u]
      {
        if procs[order[i]].parent == pid {
          procs := procs[order[i] := procs[order[i]].(parent := 1)];
        }
        i := i + 1;
      }
    }

    /** One turn of the loop in sys_wait. */
    method WaitTurn(me: Uid) returns (r: Turn)
      requires Listed() && AtWait(K(), me)
      modifies this`procs, this`reaped
      ensures match r
        case Got(pid, status) => exists c ::
          Collect(old(K()), K(), me, c) && reaped[|reaped| - 1] == Reaped(me, c, pid, status)
        case Failed => Childless(old(K()), K(), me)
        case Slept => exists c :: Block(old(K()), K(), me, c)
      ensures r.Got? ==> exists c ::
        && Finds(old(K()), HangingChild, old(procs)[me].pid, c)
        && r.pid == old(procs)[c].pid && r.status == old(procs)[c].exitStatus
        && procs == old(procs)[c := old(procs)[c].(status := Died)][me := old(procs)[me].(phase := Reaping(c))]
      ensures r.Failed? <==> forall c :: c in old(procs) ==> old(procs)[c].parent != old(procs)[me].pid
      ensures r.Failed? ==> procs == old(procs)[me := old(procs)[me].(phase := Home)]
      ensures r.Slept? ==> procs == old(procs)[me := old(procs)[me].(status := Waiting, phase := InWait)]
    {
      var found, c := Traverse(HangingChild, procs[me].pid);
      if found {
        r := Got(procs[c].pid, procs[c].exitStatus);
        reaped := reaped + [Reaped(me, c, r.pid, r.status)];
        procs := procs[c := procs[c].(status := Died)][me := procs[me].(phase := Reaping(c))];
        assert Collect(old(K()), K(), me, c);
        assert Matches(old(K()), HangingChild, old(procs)[me].pid, c);
        return;
      }
      found, c := Traverse(Child, procs[me].pid);
      if !found {
        assert forall u :: u in procs ==> u in order && !Matches(old(K()), Child, procs[me].pid, u);
        procs := procs[me := procs[me].(phase := Home)];
        return Failed;
      }
      assert Matches(old(K()), Child, procs[me].pid, c);
      procs := procs[me := procs[me].(status := Waiting, phase := InWait)];
      assert Block(old(K()), K(), me, c);
      return Slept;
    }

    /** sys_exit up to release_prog_resource; false stands for the panic of a process without parent. */
    method ExitBegin(me: Uid, status: int) returns (ok: bool)
      requires Listed() && Runs(K(), me, Home)
      modifies this`procs, this`exits
      ensures ok <==> old(procs[me].parent) != -1
      ensures ok ==> Exit(old(K()), K(), me, status)
      ensures ok ==> procs.Keys == old(procs).Keys && forall c :: c in procs ==>
        && procs[c].parent == (if old(procs)[c].parent == old(procs)[me].pid then 1 else old(procs)[c].parent)
        && (c != me ==> procs[c] == old(procs)[c].(parent := procs[c].parent))
        && (c == me ==> procs[c] == old(procs)[c].(parent := procs[c].parent, phase := Exiting,
                                                   exitStatus := Int8(status)))
    {
      procs := procs[me := procs[me].(exitStatus := Int8(status))];
      if procs[me].parent == -1 {
        return false;
      }
      Adopt(procs[me].pid);
      procs := procs[me := procs[me].(phase := Exiting)];
      exits := exits[me := status];
      assert procs == Adopted(old(K()), old(procs[me].pid))[me := procs[me]];
      return true;
    }

    /** The rest of sys_exit; ok when pid2thread finds the parent. */
    method ExitEnd(me: Uid) returns (ok: bool)
      requires Listed() && Runs(K(), me, Exiting)
      modifies this`procs
      ensures ok ==> exists p :: Hang(old(K()), K(), me, p)
      ensures ok ==> exists p ::
        && Finds(old(K()), ByPid, old(procs)[me].parent, p) && procs.Keys == old(procs).Keys
        && forall u :: u in procs ==> procs[u] == old(procs)[u].(status :=
             if u == me then Hanging else if u == p && old(procs)[u].status == Waiting then Ready
             else old(procs)[u].status)
      ensures !ok ==> FindsNone(old(K()), ByPid, old(procs[me].parent))
    {
      var found, p := Traverse(ByPid, procs[me].parent);
      if !found {
        return false;
      }
      if procs[p].status == Waiting {
        procs := procs[p := procs[p].(status := Ready)];
      }
      procs := procs[me := procs[me].(status := Hanging)];
      assert Hang(old(K()), K(), me, p);
      return true;
    }
  }
}
