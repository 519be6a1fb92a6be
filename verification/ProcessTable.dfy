/**
 The same steps as code over threads and records that are updated in place
 (proj2/src/userprog/process.c:39-270, proj2/src/threads/thread.c:189-202).
 */
module ProcessTable {
  import opened Lists
  import opened Processes
  import opened ProcessResults
  import ProcessLaws
  import ProcessRuns

  class Table {
    var procs: map<Pid, Process>
    var infos: map<InfoId, Info>
    var nextPid: Pid
    var nextInfo: InfoId
    ghost var ended: map<Pid, int>

    ghost function Now(): State
      reads this
    {
      State(procs, infos, nextPid, nextInfo, ended)
    }

    constructor (p: Pid)
      ensures Now() == Boot(p) && Inv(Now())
    {
      procs, infos, nextPid, nextInfo, ended := map[p := Process([], None, Running)], map[], p + 1, 0, map[];
    }

    /** `process_execute` up to its `sema_down`. */
    method Execute(p: Pid)
      requires Inv(Now()) && CanExec(Now(), p)
      modifies this
      ensures Now() == Exec(old(Now()), p) && Inv(Now())
    {
      ExecKeeps(Now(), p);
      ExecFresh(Now());
      assert ProcOk(Now(), p);
      var info := NewRecord(p);
      CreateThread(p);
      procs := procs[p := procs[p].(place := InExec(info))];
      assert procs == Exec(old(Now()), p).procs;
    }

    /** A fresh record at the back of the list. */
    method NewRecord(p: Pid) returns (info: InfoId)
      requires p in procs && nextInfo !in infos
      modifies this`procs, this`infos, this`nextInfo
      ensures info == old(nextInfo) && nextInfo == info + 1
      ensures infos == old(infos)[info := Info(-1, 0, None, None, 0, 0)]
      ensures procs == old(procs)[p := old(procs[p]).(children := old(procs[p].children) + [info])]
    {
      info := nextInfo;
      nextInfo := nextInfo + 1;
      infos := infos[info := Info(-1, 0, None, None, 0, 0)];
      var list := procs[p].children + [info];
      procs := procs[p := procs[p].(children := list)];
    }

    /** `thread_create`: the new thread takes the record at the back of its creator's list. */
    method CreateThread(p: Pid)
      requires p in procs && nextPid !in procs
      requires forall i <- procs[p].children :: i in infos
      modifies this`procs, this`infos, this`nextPid
      ensures nextPid == old(nextPid) + 1
      ensures var list := old(procs[p].children);
        if list == []
        then infos == old(infos) && procs == old(procs)[old(nextPid) := Process([], None, Loading)]
        else
          var i := list[|list| - 1];
          && infos == old(infos)[i := old(infos)[i].(pid := old(nextPid), child := Some(old(nextPid)))]
          && procs == old(procs)[old(nextPid) := Process([], Some(i), Loading)]
    {
      var tid := nextPid;
      nextPid := nextPid + 1;
      procs := procs[tid := Process([], None, Loading)];
      var list := procs[p].children;
      if list != [] {
        var i := list[|list| - 1];
        procs := procs[tid := procs[tid].(pInfo := Some(i))];
        infos := infos[i := infos[i].(pid := tid, child := Some(tid))];
      }
    }

    /** `process_execute` after its `sema_down`. */
    method FinishExecute(p: Pid) returns (tid: int)
      requires Inv(Now()) && CanReturnExec(Now(), p)
      modifies this
      ensures (Now(), tid) == ReturnExec(old(Now()), p) && Inv(Now())
      ensures CanExec(Now(), p) && CanWait(Now(), p) && CanExit(Now(), p)
    {
      ReturnExecKeeps(Now(), p);
      ProcessLaws.ReturnsRunning(Now(), ProcessRuns.ReturnExecStep(p), p);
      var i := procs[p].place.info;
      infos := infos[i := infos[i].(start := infos[i].start - 1)];
      tid := infos[i].pid;
      if !infos[i].success.value { tid := -1; }
      procs := procs[p := procs[p].(place := Running)];
    }

    /** `start_process` once `load` has returned. */
    method Started(c: Pid, success: bool)
      requires Inv(Now()) && CanLoad(Now(), c)
      modifies this
      ensures Now() == (if success then LoadOk(old(Now()), c) else LoadFail(old(Now()), c)) && Inv(Now())
    {
      if success { LoadOkKeeps(Now(), c); } else { LoadFailKeeps(Now(), c); }
      ghost var s := Now();
      var i := procs[c].pInfo.value;
      infos := infos[i := infos[i].(success := Some(success))];
      if !success {
        ProcessExit(c, s, -1);
      } else {
        infos := infos[i := infos[i].(start := infos[i].start + 1)];
        procs := procs[c := procs[c].(place := Running)];
      }
    }

    /** `process_wait` up to its `sema_down`. */
    method Await(p: Pid, childTid: Pid) returns (r: Option<int>)
      requires Inv(Now()) && CanWait(Now(), p)
      modifies this
      ensures (Now(), r) == Wait(old(Now()), p, childTid) && Inv(Now())
    {
      WaitKeeps(Now(), p, childTid);
      var list, k := procs[p].children, 0;
      while k < |list| && infos[list[k]].pid != childTid
        invariant 0 <= k <= |list|
        invariant forall i <- list :: i in infos
        invariant FindChild(Now(), list, childTid) == FindChild(Now(), list[k..], childTid)
      {
        assert list[k..][1..] == list[k + 1..];
        k := k + 1;
      }
      if k == |list| { return Some(-1); }
      procs := procs[p := procs[p].(place := InWait(list[k]))];
      r := None;
    }

    /** `process_wait` after its `sema_down`. */
    method FinishWait(p: Pid) returns (status: int)
      requires Inv(Now()) && CanReturnWait(Now(), p)
      modifies this
      ensures (Now(), status) == ReturnWait(old(Now()), p) && Inv(Now())
    {
      ReturnWaitKeeps(Now(), p);
      var i := procs[p].place.info;
      status := infos[i].exitStatus;
      procs := procs[p := procs[p].(children := Without(procs[p].children, i), place := Running)];
      infos := infos - {i};
    }

    /** `syscall_process_exit`. */
    method SyscallExit(c: Pid, status: int)
      requires Inv(Now()) && CanExit(Now(), c)
      modifies this
      ensures Now() == Exit(old(Now()), c, status) && Inv(Now())
    {
      ExitKeeps(Now(), c, status);
      ghost var s := Now();
      var pInfo := procs[c].pInfo;
      if pInfo.Some? {
        infos := infos[pInfo.value := infos[pInfo.value].(exitStatus := status)];
      }
      ProcessExit(c, s, status);
    }

    /** A process killed by an exception. */
    method Killed(c: Pid)
      requires Inv(Now()) && CanExit(Now(), c)
      modifies this
      ensures Now() == Kill(old(Now()), c) && Inv(Now())
    {
      KillKeeps(Now(), c);
      KillIsExit(Now(), c);
      ProcessExit(c, Now(), -1);
    }

    /** `process_exit`: one pass over the children's records, then the own record. */
    method ProcessExit(c: Pid, ghost s0: State, ghost status: int)
      requires AboutToLeave(s0, Now(), c, status)
      requires procs[c].pInfo.Some? ==> procs[c].pInfo.value in infos && infos[procs[c].pInfo.value].success.Some?
      modifies this
      ensures Now() == Leave(old(Now()), c, status)
    {
      FreeChildren(c, s0, status);
      var pInfo := procs[c].pInfo;
      if pInfo.Some? { UpOwn(pInfo.value); }
      procs := procs - {c};
      ended := ended[c := status];
    }

    /** The pass over the children. */
    method FreeChildren(c: Pid, ghost s0: State, ghost status: int)
      requires AboutToLeave(s0, Now(), c, status)
      modifies this`procs, this`infos
      ensures Now() == Orphaned(old(Now()), s0.procs[c].children)
      ensures procs[c] == s0.procs[c]
      ensures procs[c].pInfo.Some? ==> procs[c].pInfo.value in infos && infos[procs[c].pInfo.value].success.Some?
    {
      OwnRecord(s0, Now(), c, status);
      ghost var s := Now();
      var list, k := procs[c].children, 0;
      assert Now() == Orphaned(s, list[..0]);
      while k < |list|
        invariant 0 <= k <= |list|
        invariant Now() == Orphaned(s, list[..k])
      {
        OrphanNext(s0, s, c, status, k);
        FreeChild(list[k]);
        k := k + 1;
      }
      assert list[..k] == list;
    }

    /** One child's record. */
    method FreeChild(i: InfoId)
      requires i in infos && (infos[i].child.Some? ==> infos[i].child.value in procs)
      modifies this`procs, this`infos
      ensures Now() == Unlinked(old(Now()), i)
    {
      var child := infos[i].child;
      if child.Some? {
        procs := procs[child.value := procs[child.value].(pInfo := None)];
      }
      infos := infos - {i};
    }

    /** The own record: gone, `sema_finish` up, and `sema_start` too if the load failed. */
    method UpOwn(i: InfoId)
      requires i in infos && infos[i].success.Some?
      modifies this`infos
      ensures Now() == Marked(old(Now()), i)
    {
      infos := infos[i := infos[i].(child := None, finish := infos[i].finish + 1)];
      if !infos[i].success.value {
        assert infos[i].success == Some(false);
        infos := infos[i := infos[i].(start := infos[i].start + 1)];
      } else {
        assert infos[i].success == Some(true);
      }
    }
  }

  /** A record freed, and the process it points at, if any, without its pointer. */
  function Unlinked(s: State, i: InfoId): State
    requires i in s.infos && (s.infos[i].child.Some? ==> s.infos[i].child.value in s.procs)
  {
    s.(infos := s.infos - {i},
       procs := match s.infos[i].child
         case None => s.procs
         case Some(q) => s.procs[q := s.procs[q].(pInfo := None)])
  }

  lemma KillIsExit(s: State, c: Pid)
    requires Inv(s) && CanExit(s, c)
    ensures AboutToLeave(s, s, c, -1)
  {
    assert ProcOk(s, c);
    if s.procs[c].pInfo.Some? {
      var i := s.procs[c].pInfo.value;
      assert InfoOk(s, i) && s == WithInfo(s, i, s.infos[i].(exitStatus := -1));
    }
  }

  /** The turn of the loop that frees record k: exactly the process it points at points back. */
  lemma OrphanNext(s0: State, s: State, c: Pid, status: int, k: nat)
    requires AboutToLeave(s0, s, c, status) && k < |s0.procs[c].children|
    ensures var list := s0.procs[c].children;
      var s1, i := Orphaned(s, list[..k]), list[k];
      && i in s1.infos
      && (s1.infos[i].child.Some? ==> s1.infos[i].child.value in s1.procs)
      && Orphaned(s, list[..k + 1]) == Unlinked(s1, i)
  {
    OwnRecord(s0, s, c, status);
    var list := s0.procs[c].children;
    var i := list[k];
    assert ProcOk(s0, c) && i in list;
    assert InfoOk(s0, i) && s.infos[i] == s0.infos[i];
    assert forall x :: x in list[..k + 1] <==> x in list[..k] || x == i;
    forall q | q in s.procs
      ensures s.procs[q].pInfo == Some(i) <==> s.infos[i].child == Some(q)
    {
      assert ProcOk(s0, q);
    }
    OrphanOne(s, list[..k], list[..k + 1], i);
  }

  lemma OrphanOne(s: State, before: seq<InfoId>, after: seq<InfoId>, i: InfoId)
    requires i in s.infos && i !in before
    requires forall x :: x in after <==> x in before || x == i
    requires s.infos[i].child.Some? ==> s.infos[i].child.value in s.procs
    requires forall q {:trigger s.procs[q]} :: q in s.procs ==>
      (s.procs[q].pInfo == Some(i) <==> s.infos[i].child == Some(q))
    ensures Orphaned(s, after) == Unlinked(Orphaned(s, before), i)
  {
    var s1 := Orphaned(s, before);
    assert Orphaned(s, after).infos == Unlinked(s1, i).infos;
    forall q | q in s.procs
      ensures Orphaned(s, after).procs[q] == Unlinked(s1, i).procs[q]
    {
    }
    assert Orphaned(s, after).procs == Unlinked(s1, i).procs;
  }
}
