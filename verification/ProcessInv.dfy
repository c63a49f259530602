/** What every run of fork, exit and wait keeps. */
module ProcessInv {
  import opened Bitmap
  import opened Scheduler
  import opened Processes

  // ---------------------------------------------------------------- the invariant

  ghost predicate Table(k: State) {
    && NoRepeats(k.order) && (forall u :: u in k.order <==> u in k.procs)
    && (forall u :: u in k.procs ==> u < k.next)
    && INIT in k.procs && k.procs[INIT].pid == 1 && k.procs[INIT].parent == -1 && k.procs[INIT].phase != Exiting
  }

  /** The process has the pid, or is between allocating it and listing the new process, or
      between unlisting a process and returning the pid. */
  ghost predicate Claims(k: State, u: Uid, x: Pid) {
    u in k.procs && (k.procs[u].pid == x || Pending(k.procs[u].phase, x))
  }

  predicate Pending(p: Phase, x: Pid) {
    (p.Creating? && p.child == x) || (p.Releasing? && p.freed == x)
  }

  ghost predicate Claimed(k: State, x: Pid) { exists u :: Claims(k, u, x) }

  /** The pid bitmap is exact, and no pid is used twice. */
  ghost predicate Pids(k: State) {
    && (forall u, x :: Claims(k, u, x) ==> 1 <= x <= |k.pids| && k.pids[x - 1])
    && (forall u, v, x :: Claims(k, u, x) && Claims(k, v, x) ==> u == v)
    && (forall u :: u in k.procs ==> !Pending(k.procs[u].phase, k.procs[u].pid))
    && (forall b :: 0 <= b < |k.pids| && k.pids[b] ==> Claimed(k, b + 1))
  }

  ghost predicate IsParent(k: State, p: Uid, u: Uid) {
    p in k.procs && u in k.procs && k.procs[p].pid == k.procs[u].parent
  }

  /** A live process that has not begun to exit. */
  predicate Active(k: State, p: Uid) {
    p in k.procs && k.procs[p].phase != Exiting && k.procs[p].status !in {Hanging, Died}
  }

  ghost predicate HasParent(k: State, u: Uid) {
    exists p :: IsParent(k, p, u) && Active(k, p)
  }

  ghost predicate PhaseOk(k: State, u: Uid)
    requires u in k.procs
  {
    var p := k.procs[u];
    && (p.status in {Hanging, Died} ==> p.phase == Exiting)
    && (p.status == Waiting ==> p.phase == InWait)
    && (p.phase.Creating? ==> p.phase.parent in {-1, p.pid})
    && (p.phase.Reaping? ==>
          p.phase.corpse in k.procs && k.procs[p.phase.corpse].status == Died && IsParent(k, u, p.phase.corpse))
  }

  /** Every parent is alive and not exiting, or there is none. */
  ghost predicate Family(k: State) {
    && (forall u :: u in k.procs ==> PhaseOk(k, u))
    && (forall u :: u in k.procs && k.procs[u].parent != -1 ==> HasParent(k, u))
  }

  ghost predicate HasChild(k: State, u: Uid) { exists c :: IsParent(k, u, c) }

  ghost predicate HangsUnder(k: State, u: Uid, c: Uid) {
    IsParent(k, u, c) && k.procs[c].status == Hanging
  }

  /** A waiting process has a child, and unless it is one of the spared no child of it hangs. */
  ghost predicate Waiters(k: State, spared: set<Uid>) {
    && (forall u :: u in k.procs && k.procs[u].status == Waiting ==> HasChild(k, u))
    && (forall u, c :: HangsUnder(k, u, c) && u !in spared ==> k.procs[u].status != Waiting)
  }

  ghost predicate WasReaped(k: State, u: Uid) { exists i :: 0 <= i < |k.reaped| && k.reaped[i].child == u }

  ghost predicate ExitOk(k: State, u: Uid) {
    && (u in k.exits ==> u < k.next && (u in k.procs || WasReaped(k, u)))
    && (u in k.procs ==> (u in k.exits <==> k.procs[u].phase == Exiting))
    && (u in k.procs ==> (WasReaped(k, u) <==> k.procs[u].status == Died))
    && (u in k.procs && u in k.exits ==> k.procs[u].exitStatus == Int8(k.exits[u]))
  }

  /** Every exit is reaped at most once, with its own status, and until then the process is there. */
  ghost predicate Log(k: State) {
    && (forall u :: ExitOk(k, u))
    && (forall i :: 0 <= i < |k.reaped| ==>
      k.reaped[i].child in k.exits && k.reaped[i].status == Int8(k.exits[k.reaped[i].child]))
    && (forall i, j :: 0 <= i < j < |k.reaped| ==> k.reaped[i].child != k.reaped[j].child)
  }

  ghost predicate Inv(k: State) {
    Table(k) && Pids(k) && Family(k) && Waiters(k, {INIT}) && Log(k)
  }

  // ---------------------------------------------------------------- the table and the pids

  predicate HoldsPid(p: Phase) { p.Creating? || p.Releasing? }

  /** The steps that neither list nor unlist a process, nor touch a pid. */
  ghost predicate InPlace(k: State, k': State) {
    && k'.order == k.order && k'.next == k.next && k'.procs.Keys == k.procs.Keys && k'.pids == k.pids
    && (forall v :: v in k.procs ==>
      k'.procs[v].pid == k.procs[v].pid && HoldsPid(k'.procs[v].phase) == HoldsPid(k.procs[v].phase))
    && (forall v :: v in k.procs && HoldsPid(k.procs[v].phase) ==> k'.procs[v].phase == k.procs[v].phase)
    && (INIT in k.procs ==> k'.procs[INIT].parent == k.procs[INIT].parent || k.procs[INIT].parent != -1)
    && (INIT in k.procs ==> k'.procs[INIT].phase != Exiting || k.procs[INIT].phase == Exiting)
  }

  lemma FindsIsThere(k: State, q: Query, pid: Pid, u: Uid)
    requires Finds(k, q, pid, u)
    ensures u in k.procs && Matches(k, q, pid, u)
  {
  }

  lemma ExitInPlace(k: State, k': State, u: Uid, status: int)
    requires Table(k) && Pids(k) && Exit(k, k', u, status)
    ensures InPlace(k, k')
  {
    assert Claims(k, u, k.procs[u].pid);
  }

  lemma MostInPlace(k: State, k': State, u: Uid, c: Uid, s: Status)
    requires Table(k)
    requires Switch(k, k', u, s) || Childless(k, k', u) || Hang(k, k', u, c) || Collect(k, k', u, c)
      || Block(k, k', u, c)
    ensures InPlace(k, k')
  {
    hide NoRepeats, Finds, FindsNone, Table;
    if Hang(k, k', u, c) {
      FindsIsThere(k, ByPid, k.procs[u].parent, c);
    } else if Collect(k, k', u, c) {
      FindsIsThere(k, HangingChild, k.procs[u].pid, c);
    }
  }

  lemma StepInPlace(k: State, k': State, u: Uid)
    requires Inv(k) && Step(k, k', u)
    ensures || InPlace(k, k') || (exists fork :: Begin(k, k', u, fork)) || Finish(k, k', u)
            || (exists i :: Unlist(k, k', u, i)) || Release(k, k', u)
  {
    hide Table, Pids, Waiters, Log, Family, Switch, Begin, Finish, Exit, Hang, Collect, Childless, Block, Unlist,
      Release, InPlace;
    if x :| Exit(k, k', u, x) {
      ExitInPlace(k, k', u, x);
    } else if c :| Hang(k, k', u, c) || Collect(k, k', u, c) || Block(k, k', u, c) {
      MostInPlace(k, k', u, c, Ready);
    } else if s :| Switch(k, k', u, s) {
      MostInPlace(k, k', u, 0, s);
    } else if Childless(k, k', u) {
      MostInPlace(k, k', u, 0, Ready);
    }
  }

  lemma TableFinish(k: State, k': State, u: Uid)
    requires Table(k) && Finish(k, k', u)
    ensures Table(k')
  {
    assert k.next !in k.order;
  }

  lemma Removed(s: seq<Uid>, i: nat)
    requires NoRepeats(s) && i < |s|
    ensures var r := s[..i] + s[i + 1..]; NoRepeats(r) && forall x :: x in r <==> x in s && x != s[i]
  {
    assert s == s[..i] + [s[i]] + s[i + 1..];
  }

  lemma TableUnlist(k: State, k': State, u: Uid, i: nat)
    requires Table(k) && Family(k) && Unlist(k, k', u, i)
    ensures Table(k')
  {
    hide NoRepeats;
    var c := k.procs[u].phase.corpse;
    assert PhaseOk(k, u) && PhaseOk(k, c);
    Removed(k.order, i);
  }

  lemma TableKept(k: State, k': State, u: Uid)
    requires Inv(k) && Step(k, k', u)
    ensures Table(k')
  {
    hide Pids, Waiters, Log, NoRepeats, Finds, FindsNone, Family, Step;
    StepInPlace(k, k', u);
    if Finish(k, k', u) {
      TableFinish(k, k', u);
    } else if i :| Unlist(k, k', u, i) {
      TableUnlist(k, k', u, i);
    }
  }

  lemma PidsSame(k: State, k': State)
    requires Pids(k) && InPlace(k, k')
    ensures Pids(k')
  {
    forall u, x ensures Claims(k', u, x) <==> Claims(k, u, x) {
    }
    forall b | 0 <= b < |k.pids| && k.pids[b] ensures Claimed(k', b + 1) {
      var u :| Claims(k, u, b + 1);
      assert Claims(k', u, b + 1);
    }
  }

  lemma FreePid(pids: seq<bool>)
    requires FindRun(pids, 1) != -1
    ensures 0 <= FindRun(pids, 1) < |pids| && !pids[FindRun(pids, 1)]
  {
    RunOfOne(pids);
    assert ClearRun(pids, FindRun(pids, 1), 1);
  }

  /** One pid changes hands, or is claimed for the first time. */
  lemma PidMoves(k: State, k': State, x0: Pid, w: Uid)
    requires Pids(k) && |k'.pids| == |k.pids| && 1 <= x0 <= |k.pids| && k'.pids == k.pids[x0 - 1 := true]
    requires forall v, x :: Claims(k', v, x) <==> if x == x0 then v == w else Claims(k, v, x)
    requires forall v :: v in k'.procs ==> !Pending(k'.procs[v].phase, k'.procs[v].pid)
    ensures Pids(k')
  {
    forall b | 0 <= b < |k'.pids| && k'.pids[b] ensures Claimed(k', b + 1) {
      if b + 1 == x0 {
        assert Claims(k', w, b + 1);
      } else {
        var v :| Claims(k, v, b + 1);
        assert Claims(k', v, b + 1);
      }
    }
  }

  lemma PidsBegin(k: State, k': State, u: Uid, fork: bool)
    requires Pids(k) && Begin(k, k', u, fork)
    ensures Pids(k')
  {
    hide FindRun, IsLeftmost;
    var x0 := FindRun(k.pids, 1) + 1;
    FreePid(k.pids);
    assert Claims(k, u, k.procs[u].pid);
    forall v: Uid, x: Pid ensures Claims(k', v, x) <==> if x == x0 then v == u else Claims(k, v, x) {
      assert Claims(k, v, x) ==> x != x0;
    }
    PidMoves(k, k', x0, u);
  }

  lemma PidsFinish(k: State, k': State, u: Uid)
    requires Table(k) && Pids(k) && Finish(k, k', u)
    ensures Pids(k')
  {
    var x0 := k.procs[u].phase.child;
    assert Claims(k, u, x0) && !Pending(k.procs[u].phase, k.procs[u].pid);
    forall v: Uid, x: Pid ensures Claims(k', v, x) <==> if x == x0 then v == k.next else Claims(k, v, x) {
      if v != u && v != k.next {
        assert Claims(k', v, x) <==> Claims(k, v, x);
      }
    }
    PidMoves(k, k', x0, k.next);
  }

  /** Nobody else claims a live process's pid. */
  lemma OneClaim(k: State, c: Uid, v: Uid)
    requires Pids(k) && c in k.procs
    ensures 1 <= k.procs[c].pid <= |k.pids| && k.pids[k.procs[c].pid - 1] && (Claims(k, v, k.procs[c].pid) ==> v == c)
  {
    assert Claims(k, c, k.procs[c].pid);
  }

  lemma OwnPid(k: State)
    requires Pids(k)
    ensures forall v :: v in k.procs ==> !Pending(k.procs[v].phase, k.procs[v].pid)
  {
  }

  /** The pid of the process taken off the list passes to the one that reaps it. */
  lemma UnlistClaims(k: State, k': State, u: Uid, i: nat, v: Uid, x: Pid)
    requires Pids(k) && Family(k) && Unlist(k, k', u, i)
    ensures var x0 := k.procs[k.procs[u].phase.corpse].pid;
      && (Claims(k', v, x) <==> if x == x0 then v == u else Claims(k, v, x))
      && (v in k'.procs ==> !Pending(k'.procs[v].phase, k'.procs[v].pid))
  {
    hide Pids, HasParent;
    var c := k.procs[u].phase.corpse;
    assert PhaseOk(k, u) && PhaseOk(k, c);
    OneClaim(k, c, u);
    OneClaim(k, c, v);
    OwnPid(k);
    if v != u && v != c {
      assert v in k'.procs <==> v in k.procs;
      assert v in k.procs ==> k'.procs[v] == k.procs[v];
    }
  }

  lemma PidsUnlist(k: State, k': State, u: Uid, i: nat)
    requires Pids(k) && Family(k) && Unlist(k, k', u, i)
    ensures Pids(k')
  {
    hide Pids, Family, Claims, Pending;
    var c := k.procs[u].phase.corpse;
    var x0 := k.procs[c].pid;
    OneClaim(k, c, u);
    forall v: Uid, x: Pid ensures Claims(k', v, x) <==> if x == x0 then v == u else Claims(k, v, x) {
      UnlistClaims(k, k', u, i, v, x);
    }
    forall v | v in k'.procs ensures !Pending(k'.procs[v].phase, k'.procs[v].pid) {
      UnlistClaims(k, k', u, i, v, x0);
    }
    PidMoves(k, k', x0, u);
  }

  lemma PidsRelease(k: State, k': State, u: Uid)
    requires Pids(k) && Release(k, k', u)
    ensures Pids(k')
  {
    var x0 := k.procs[u].phase.freed;
    assert Claims(k, u, x0) && !Pending(k.procs[u].phase, k.procs[u].pid);
    forall v: Uid, x: Pid ensures Claims(k', v, x) <==> Claims(k, v, x) && x != x0 {
      if v == u {
        assert Claims(k', v, x) <==> x == k.procs[u].pid;
      } else {
        assert Claims(k', v, x) <==> Claims(k, v, x);
      }
    }
    forall b | 0 <= b < |k'.pids| && k'.pids[b] ensures Claimed(k', b + 1) {
      var v :| Claims(k, v, b + 1);
      assert Claims(k', v, b + 1);
    }
  }

  lemma PidsKept(k: State, k': State, u: Uid)
    requires Inv(k) && Step(k, k', u)
    ensures Pids(k')
  {
    hide Table, Waiters, Log, Pids, Family, Step, Begin, Finish, Unlist, Release, InPlace;
    StepInPlace(k, k', u);
    if fork :| Begin(k, k', u, fork) {
      PidsBegin(k, k', u, fork);
    } else if Finish(k, k', u) {
      PidsFinish(k, k', u);
    } else if i :| Unlist(k, k', u, i) {
      PidsUnlist(k, k', u, i);
    } else if Release(k, k', u) {
      PidsRelease(k, k', u);
    } else {
      PidsSame(k, k');
    }
  }

  // ---------------------------------------------------------------- parents

  /** Nobody's pid or parent changes. */
  ghost predicate SameKin(k: State, k': State) {
    && k'.procs.Keys == k.procs.Keys
    && forall v :: v in k.procs ==> k'.procs[v].pid == k.procs[v].pid && k'.procs[v].parent == k.procs[v].parent
  }

  lemma KinKept(k: State, k': State, u: Uid, c: Uid, s: Status, fork: bool)
    requires || Switch(k, k', u, s) || Begin(k, k', u, fork) || Hang(k, k', u, c) || Collect(k, k', u, c)
             || Childless(k, k', u) || Block(k, k', u, c) || Release(k, k', u)
    ensures SameKin(k, k')
  {
    hide FindRun, FindsNone, Finds;
    if Hang(k, k', u, c) {
      FindsIsThere(k, ByPid, k.procs[u].parent, c);
    } else if Collect(k, k', u, c) {
      FindsIsThere(k, HangingChild, k.procs[u].pid, c);
    }
  }

  lemma FamilySame(k: State, k': State)
    requires Family(k) && SameKin(k, k')
    requires forall v :: Active(k, v) ==> Active(k', v)
    requires forall v :: v in k'.procs ==> PhaseOk(k', v)
    ensures Family(k')
  {
    forall v | v in k'.procs && k'.procs[v].parent != -1 ensures HasParent(k', v) {
      assert HasParent(k, v);
      var p :| IsParent(k, p, v) && Active(k, p);
      assert IsParent(k', p, v) && Active(k', p);
    }
  }

  lemma SameParent(k: State, p: Uid, q: Uid, u: Uid)
    requires Pids(k) && IsParent(k, p, u) && IsParent(k, q, u)
    ensures p == q
  {
    assert Claims(k, p, k.procs[u].parent) && Claims(k, q, k.procs[u].parent);
  }

  lemma FamilyQuiet(k: State, k': State, u: Uid, c: Uid, s: Status, fork: bool)
    requires Family(k)
    requires Switch(k, k', u, s) || Begin(k, k', u, fork) || Childless(k, k', u) || Block(k, k', u, c)
      || Release(k, k', u)
    ensures Family(k')
  {
    hide FindRun, FindsNone, Finds, HasParent;
    KinKept(k, k', u, c, s, fork);
    forall v | v in k'.procs ensures PhaseOk(k', v) {
      assert PhaseOk(k, v);
    }
    FamilySame(k, k');
  }

  lemma FamilyHang(k: State, k': State, u: Uid, p: Uid)
    requires Family(k) && Hang(k, k', u, p)
    ensures Family(k')
  {
    hide Finds, HasParent;
    FindsIsThere(k, ByPid, k.procs[u].parent, p);
    KinKept(k, k', u, p, Ready, false);
    forall v | v in k'.procs ensures PhaseOk(k', v) {
      assert PhaseOk(k, v);
    }
    FamilySame(k, k');
  }

  lemma FamilyCollect(k: State, k': State, u: Uid, c: Uid)
    requires Family(k) && Collect(k, k', u, c)
    ensures Family(k')
  {
    hide Finds, HasParent;
    FindsIsThere(k, HangingChild, k.procs[u].pid, c);
    KinKept(k, k', u, c, Ready, false);
    assert PhaseOk(k, c);
    forall v | v in k'.procs ensures PhaseOk(k', v) {
      assert PhaseOk(k, v);
    }
    FamilySame(k, k');
  }

  lemma FamilyFinish(k: State, k': State, u: Uid)
    requires Table(k) && Family(k) && Finish(k, k', u)
    ensures Family(k')
  {
    forall v | v in k'.procs ensures PhaseOk(k', v) {
      assert v != k.next ==> PhaseOk(k, v);
    }
    forall v | v in k'.procs && k'.procs[v].parent != -1 ensures HasParent(k', v) {
      if v == k.next {
        assert PhaseOk(k, u);
        assert IsParent(k', u, v) && Active(k', u);
      } else {
        assert HasParent(k, v);
        var p :| IsParent(k, p, v) && Active(k, p);
        assert IsParent(k', p, v) && Active(k', p);
      }
    }
  }

  lemma ExitPhase(k: State, k': State, u: Uid, status: int, v: Uid)
    requires Table(k) && Pids(k) && Family(k) && Exit(k, k', u, status) && v in k.procs
    ensures v in k'.procs && PhaseOk(k', v)
  {
    hide NoRepeats, HasParent;
    ExitInPlace(k, k', u, status);
    assert PhaseOk(k, v);
    assert Claims(k, v, k.procs[v].pid) && Claims(k, u, k.procs[u].pid);
  }

  lemma ExitInit(k: State, k': State, u: Uid, status: int)
    requires Table(k) && Family(k) && Exit(k, k', u, status)
    ensures Active(k', INIT) && k'.procs[INIT].pid == 1
  {
    hide NoRepeats, HasParent;
    assert PhaseOk(k, INIT);
  }

  lemma FamilyExit(k: State, k': State, u: Uid, status: int)
    requires Table(k) && Pids(k) && Family(k) && Exit(k, k', u, status)
    ensures Family(k')
  {
    hide NoRepeats, PhaseOk, Pids;
    ExitInPlace(k, k', u, status);
    ExitInit(k, k', u, status);
    forall v | v in k'.procs ensures PhaseOk(k', v) {
      ExitPhase(k, k', u, status, v);
    }
    forall v | v in k'.procs && k'.procs[v].parent != -1 ensures HasParent(k', v) {
      if k.procs[v].parent == k.procs[u].pid {
        assert IsParent(k', INIT, v);
      } else {
        assert HasParent(k, v);
        var p :| IsParent(k, p, v) && Active(k, p);
        assert IsParent(k', p, v) && Active(k', p);
      }
    }
  }

  lemma FamilyUnlist(k: State, k': State, u: Uid, i: nat)
    requires Pids(k) && Family(k) && Unlist(k, k', u, i)
    ensures Family(k')
  {
    var c := k.procs[u].phase.corpse;
    assert PhaseOk(k, u) && PhaseOk(k, c);
    forall v | v in k'.procs ensures PhaseOk(k', v) {
      assert PhaseOk(k, v);
      if k.procs[v].phase == Reaping(c) {
        SameParent(k, u, v, c);
      }
    }
    forall v | v in k'.procs && k'.procs[v].parent != -1 ensures HasParent(k', v) {
      assert HasParent(k, v);
      var p :| IsParent(k, p, v) && Active(k, p);
      assert IsParent(k', p, v) && Active(k', p);
    }
  }

  lemma FamilyKept(k: State, k': State, u: Uid)
    requires Inv(k) && Step(k, k', u)
    ensures Family(k')
  {
    hide Table, Pids, Waiters, Log, Family, Switch, Begin, Finish, Exit, Hang, Collect, Childless, Block, Unlist,
      Release;
    if Finish(k, k', u) {
      FamilyFinish(k, k', u);
    } else if x :| Exit(k, k', u, x) {
      FamilyExit(k, k', u, x);
    } else if i :| Unlist(k, k', u, i) {
      FamilyUnlist(k, k', u, i);
    } else if c :| Hang(k, k', u, c) || Collect(k, k', u, c) || Block(k, k', u, c) {
      if Hang(k, k', u, c) {
        FamilyHang(k, k', u, c);
      } else if Collect(k, k', u, c) {
        FamilyCollect(k, k', u, c);
      } else {
        FamilyQuiet(k, k', u, c, Ready, false);
      }
    } else if s :| Switch(k, k', u, s) {
      FamilyQuiet(k, k', u, 0, s, false);
    } else {
      FamilyQuiet(k, k', u, 0, Ready, Begin(k, k', u, true));
    }
  }
}
