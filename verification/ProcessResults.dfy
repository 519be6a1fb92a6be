/**
 Every step of exec, load, wait and exit keeps the invariant, and what it means for `process_wait`.
 */
module ProcessResults {
  import opened Lists
  import opened Processes

  lemma BootGood(p: Pid)
    ensures Inv(Boot(p))
  {
  }

  /** One process, which nobody waits for. */
  function Boot(p: Pid): State {
    State(map[p := Process([], None, Running)], map[], p + 1, 0, map[])
  }

  // ----- exec -----

  /** The new process id and the new record are in use nowhere. */
  lemma ExecFresh(s: State)
    requires Inv(s)
    ensures s.nextPid !in s.procs && s.nextInfo !in s.infos && s.nextPid !in s.ended
    ensures forall p {:trigger s.procs[p]} :: p in s.procs ==> s.nextInfo !in s.procs[p].children
    ensures forall i {:trigger s.infos[i]} :: i in s.infos ==> s.infos[i].pid != s.nextPid
  {
    if s.nextPid in s.procs { ProcBound(s, s.nextPid); }
    if s.nextInfo in s.infos { InfoBound(s, s.nextInfo); }
    forall p | p in s.procs ensures s.nextInfo !in s.procs[p].children {
      assert ProcOk(s, p);
      if s.nextInfo in s.procs[p].children { InfoBound(s, s.nextInfo); }
    }
    forall i | i in s.infos ensures s.infos[i].pid != s.nextPid { InfoBound(s, i); }
  }

  lemma ProcBound(s: State, p: Pid)
    requires ProcsOk(s) && p in s.procs
    ensures p < s.nextPid
  {
    assert ProcOk(s, p);
  }

  lemma InfoBound(s: State, i: InfoId)
    requires InfosOk(s) && i in s.infos
    ensures i < s.nextInfo && s.infos[i].pid < s.nextPid
  {
    assert InfoOk(s, i);
  }

  lemma ExecKeeps(s: State, p: Pid)
    requires Inv(s) && CanExec(s, p)
    ensures Inv(Exec(s, p))
  {
    ExecFresh(s);
    ExecProcs(s, p);
    ExecInfos(s, p);
    ExecOwners(s, p);
  }

  lemma ExecProcs(s: State, p: Pid)
    requires ProcsOk(s) && CanExec(s, p)
    requires s.nextPid !in s.procs && s.nextInfo !in s.infos && s.nextPid !in s.ended
    ensures ProcsOk(Exec(s, p))
  {
    var s', i, c := Exec(s, p), s.nextInfo, s.nextPid;
    forall q | q in s'.procs
      ensures ProcOk(s', q)
    {
      if q != c { assert ProcOk(s, q); }
      if q == p { PushDistinct(i, s.procs[p].children); }
    }
  }

  lemma ExecInfos(s: State, p: Pid)
    requires InfosOk(s) && CanExec(s, p)
    requires s.nextPid !in s.procs && s.nextInfo !in s.infos
    ensures InfosOk(Exec(s, p))
  {
    var s', i := Exec(s, p), s.nextInfo;
    forall j | j in s'.infos
      ensures InfoOk(s', j) && Owned(s', j)
    {
      if j == i {
        assert i in s'.procs[p].children;
      } else {
        assert InfoOk(s, j) && Owned(s, j);
        var q :| q in s.procs && j in s.procs[q].children;
        assert j in s'.procs[q].children;
      }
    }
  }

  lemma ExecOwners(s: State, p: Pid)
    requires Inv(s) && CanExec(s, p) && s.nextPid !in s.procs && s.nextInfo !in s.infos
    requires forall q {:trigger s.procs[q]} :: q in s.procs ==> s.nextInfo !in s.procs[q].children
    requires forall i {:trigger s.infos[i]} :: i in s.infos ==> s.infos[i].pid != s.nextPid
    ensures OwnersOk(Exec(s, p)) && Unshared(Exec(s, p))
  {
    var s' := Exec(s, p);
    forall q, j | q in s'.procs && j in s'.infos
      ensures OwnerOk(s', q, j)
    {
      if q in s.procs {
        assert ProcOk(s, q);
        if j in s.infos { assert OwnerOk(s, q, j); }
      }
    }
  }

  lemma ReturnExecKeeps(s: State, p: Pid)
    requires Inv(s) && CanReturnExec(s, p)
    ensures Inv(ReturnExec(s, p).0)
  {
    var s' := ReturnExec(s, p).0;
    forall q | q in s'.procs
      ensures ProcOk(s', q)
    {
      assert ProcOk(s, q);
    }
    SameLists(s, s');
    assert ProcOk(s, p);
    forall q, j | q in s'.procs && j in s'.infos
      ensures OwnerOk(s', q, j)
    {
      assert OwnerOk(s, q, j) && OwnerOk(s, p, j);
    }
  }

  /** Records stay owned and well formed when only places and `sema_start` change. */
  lemma SameLists(s: State, s': State)
    requires InfosOk(s) && s'.procs.Keys == s.procs.Keys && s'.infos.Keys == s.infos.Keys
    requires s'.nextInfo == s.nextInfo && s'.nextPid == s.nextPid && s'.ended == s.ended
    requires forall q {:trigger s'.procs[q]} :: q in s.procs ==>
      s'.procs[q].children == s.procs[q].children && s'.procs[q].pInfo == s.procs[q].pInfo
      && (s'.procs[q].place.Loading? <==> s.procs[q].place.Loading?)
    requires forall i {:trigger s'.infos[i]} :: i in s.infos ==> s'.infos[i] == s.infos[i].(start := s'.infos[i].start)
    ensures InfosOk(s')
  {
    forall j | j in s'.infos
      ensures InfoOk(s', j) && Owned(s', j)
    {
      assert InfoOk(s, j) && Owned(s, j) && s'.infos[j] == s.infos[j].(start := s'.infos[j].start);
      var q :| q in s.procs && j in s.procs[q].children;
      assert j in s'.procs[q].children;
    }
  }

  lemma LoadOkKeeps(s: State, c: Pid)
    requires Inv(s) && CanLoad(s, c)
    ensures Inv(LoadOk(s, c))
  {
    var s', i := LoadOk(s, c), s.procs[c].pInfo.value;
    assert ProcOk(s, c) && InfoOk(s, i);
    forall q | q in s'.procs
      ensures ProcOk(s', q)
    {
      assert ProcOk(s, q);
    }
    forall j | j in s'.infos
      ensures InfoOk(s', j) && Owned(s', j)
    {
      assert InfoOk(s, j) && Owned(s, j);
      var q :| q in s.procs && j in s.procs[q].children;
      assert j in s'.procs[q].children;
    }
    forall q, j | q in s'.procs && j in s'.infos
      ensures OwnerOk(s', q, j)
    {
      assert OwnerOk(s, q, j);
    }
  }

  // ----- exit -----

  /** The state just before `process_exit`: the leaver's record says how it ends, and all else is in order. */
  ghost predicate AboutToLeave(s0: State, s: State, c: Pid, status: int) {
    && Inv(s0) && c in s0.procs && (s0.procs[c].place.Running? || s0.procs[c].place.Loading?)
    && match s0.procs[c].pInfo
       case None => s == s0
       case Some(i) =>
         && i in s0.infos
         && var r := s0.infos[i];
           var success := if s0.procs[c].place.Loading? then Some(false) else r.success;
           s == WithInfo(s0, i, r.(exitStatus := status, success := success))
  }

  /** The leaver's own record is not among those it frees, and `success` is settled. */
  lemma OwnRecord(s0: State, s: State, c: Pid, status: int)
    requires AboutToLeave(s0, s, c, status)
    ensures s0.procs[c].pInfo.Some? ==>
      s0.procs[c].pInfo.value in s.infos && s0.procs[c].pInfo.value !in s0.procs[c].children
    ensures s0.procs[c].pInfo.Some? ==> s.infos[s0.procs[c].pInfo.value].success.Some?
    ensures s.procs == s0.procs && s.infos.Keys == s0.infos.Keys
  {
    assert ProcOk(s0, c);
    if s0.procs[c].pInfo.Some? {
      var i := s0.procs[c].pInfo.value;
      assert InfoOk(s0, i) && OwnerOk(s0, c, i);
    }
  }

  /** What `process_exit` leaves behind, field by field. */
  ghost predicate Left(s0: State, s': State, c: Pid, status: int)
    requires c in s0.procs
  {
    var gone := s0.procs[c].children;
    && s'.nextPid == s0.nextPid && s'.nextInfo == s0.nextInfo && s'.ended == s0.ended[c := status]
    && (forall q {:trigger q in s'.procs} {:trigger q in s0.procs} :: q in s'.procs <==> q in s0.procs && q != c)
    && (forall q {:trigger s'.procs[q]} :: q in s'.procs ==> s'.procs[q] == Forget(s0.procs[q], gone))
    && (forall i {:trigger i in s'.infos} {:trigger i in s0.infos} :: i in s'.infos <==> i in s0.infos && i !in gone)
    && (forall i {:trigger s'.infos[i]} :: i in s'.infos ==>
          var r, r' := s0.infos[i], s'.infos[i];
          if s0.procs[c].pInfo == Some(i)
          then && r' == r.(exitStatus := status, child := None, finish := r.finish + 1,
                           success := r'.success, start := r'.start)
               && (if s0.procs[c].place.Loading?
                   then r'.success == Some(false) && r'.start == r.start + 1
                   else r'.success == r.success && r'.start == if r.success == Some(true) then r.start else r.start + 1)
          else r' == r)
  }

  lemma LeaveLeft(s0: State, s: State, c: Pid, status: int)
    requires AboutToLeave(s0, s, c, status)
    ensures s0.procs[c].pInfo.Some? ==>
      s0.procs[c].pInfo.value in s.infos && s.infos[s0.procs[c].pInfo.value].success.Some?
    ensures s.procs == s0.procs && Left(s0, Leave(s, c, status), c, status)
  {
    OwnRecord(s0, s, c, status);
  }

  /** Where a process can leave from; it is then on none of its own lists' records. */
  ghost predicate Leaver(s0: State, c: Pid) {
    && Inv(s0) && c in s0.procs && (s0.procs[c].place.Running? || s0.procs[c].place.Loading?)
    && (s0.procs[c].pInfo.Some? ==> s0.procs[c].pInfo.value !in s0.procs[c].children)
  }

  lemma LeftProcs(s0: State, s': State, c: Pid, status: int)
    requires Leaver(s0, c) && Left(s0, s', c, status)
    ensures ProcsOk(s')
  {
    assert ProcOk(s0, c);
    forall q | q in s'.procs
      ensures ProcOk(s', q)
    {
      assert ProcOk(s0, q);
      var r := s0.procs[q];
      assert s'.procs[q] == Forget(r, s0.procs[c].children);
      forall i | i in r.children ensures i in s'.infos {
        assert i in s0.procs[q].children && i in s0.infos;
        assert i in s0.procs[c].children ==> q == c;
      }
      if r.pInfo.Some? { PointerKept(s0, s', c, status, q); }
    }
  }

  /** A process that keeps its pointer keeps its record; only one that has been loaded can lose it. */
  lemma PointerKept(s0: State, s': State, c: Pid, status: int, q: Pid)
    requires Leaver(s0, c) && Left(s0, s', c, status) && q in s0.procs && q != c && s0.procs[q].pInfo.Some?
    ensures var i := s0.procs[q].pInfo.value;
      if i in s0.procs[c].children then !s0.procs[q].place.Loading?
      else i in s'.infos && s'.infos[i] == s0.infos[i]
  {
    assert ProcOk(s0, q) && ProcOk(s0, c);
    var i := s0.procs[q].pInfo.value;
    assert i in s0.infos && InfoOk(s0, i) && OwnerOk(s0, c, i);
  }

  lemma LeftInfos(s0: State, s': State, c: Pid, status: int)
    requires Leaver(s0, c) && Left(s0, s', c, status)
    ensures InfosOk(s')
  {
    assert ProcOk(s0, c);
    forall j | j in s'.infos
      ensures InfoOk(s', j) && Owned(s', j)
    {
      assert InfoOk(s0, j) && Owned(s0, j);
      var q :| q in s0.procs && j in s0.procs[q].children;
      assert q != c && s'.procs[q] == Forget(s0.procs[q], s0.procs[c].children);
      var r, p := s0.infos[j], s0.infos[j].pid;
      if r.child.Some? && p != c {
        assert s0.procs[p].pInfo == Some(j) && s'.procs[p] == Forget(s0.procs[p], s0.procs[c].children);
      }
    }
  }

  lemma LeftOwner(s0: State, s': State, c: Pid, status: int, q: Pid, j: InfoId)
    requires Leaver(s0, c) && Left(s0, s', c, status) && q in s'.procs && j in s'.infos
    ensures OwnerOk(s', q, j)
  {
    assert OwnerOk(s0, q, j) && InfoOk(s0, j) && ProcOk(s0, c);
    assert s'.procs[q] == Forget(s0.procs[q], s0.procs[c].children);
    var r, r' := s0.infos[j], s'.infos[j];
    if s0.procs[c].pInfo == Some(j) {
      assert r.pid == c;
      if r.success.Some? { assert r.success.value; }
    } else {
      assert r' == r;
    }
  }

  lemma LeftOwners(s0: State, s': State, c: Pid, status: int)
    requires Leaver(s0, c) && Left(s0, s', c, status)
    ensures OwnersOk(s') && Unshared(s')
  {
    assert ProcOk(s0, c);
    forall q, j | q in s'.procs && j in s'.infos
      ensures OwnerOk(s', q, j)
    {
      LeftOwner(s0, s', c, status, q, j);
    }
    LeftUnshared(s0, s', c, status);
  }

  lemma LeftUnshared(s0: State, s': State, c: Pid, status: int)
    requires Leaver(s0, c) && Left(s0, s', c, status)
    ensures Unshared(s')
  {
    forall p, q, i | p in s'.procs && q in s'.procs && i in s'.procs[p].children && i in s'.procs[q].children
      ensures p == q
    {
      assert i in s0.procs[p].children && i in s0.procs[q].children;
    }
    forall i, j | i in s'.infos && j in s'.infos && s'.infos[i].pid == s'.infos[j].pid
      ensures i == j
    {
      assert s0.infos[i].pid == s0.infos[j].pid;
    }
  }

  lemma LeaveKeeps(s0: State, s: State, c: Pid, status: int)
    requires AboutToLeave(s0, s, c, status)
    ensures s0.procs[c].pInfo.Some? ==>
      s0.procs[c].pInfo.value in s.infos && s.infos[s0.procs[c].pInfo.value].success.Some?
    ensures s.procs == s0.procs && Inv(Leave(s, c, status)) && Left(s0, Leave(s, c, status), c, status)
  {
    OwnRecord(s0, s, c, status);
    LeaveLeft(s0, s, c, status);
    var s' := Leave(s, c, status);
    LeftProcs(s0, s', c, status);
    LeftInfos(s0, s', c, status);
    LeftOwners(s0, s', c, status);
  }

  lemma LoadFailKeeps(s: State, c: Pid)
    requires Inv(s) && CanLoad(s, c)
    ensures Inv(LoadFail(s, c)) && Left(s, LoadFail(s, c), c, -1)
  {
    var i := s.procs[c].pInfo.value;
    assert ProcOk(s, c) && InfoOk(s, i);
    LeaveKeeps(s, WithInfo(s, i, s.infos[i].(success := Some(false))), c, -1);
  }

  lemma ExitKeeps(s: State, c: Pid, status: int)
    requires Inv(s) && CanExit(s, c)
    ensures Inv(Exit(s, c, status)) && Left(s, Exit(s, c, status), c, status)
  {
    var pInfo := s.procs[c].pInfo;
    LeaveKeeps(s, if pInfo.Some? then WithInfo(s, pInfo.value, s.infos[pInfo.value].(exitStatus := status)) else s,
               c, status);
  }

  lemma KillKeeps(s: State, c: Pid)
    requires Inv(s) && CanExit(s, c)
    ensures Inv(Kill(s, c)) && Left(s, Kill(s, c), c, -1)
  {
    assert ProcOk(s, c);
    if s.procs[c].pInfo.Some? {
      var i := s.procs[c].pInfo.value;
      assert InfoOk(s, i) && s == WithInfo(s, i, s.infos[i].(exitStatus := -1));
    }
    LeaveKeeps(s, s, c, -1);
  }

  // ----- wait -----

  lemma WaitKeeps(s: State, p: Pid, c: Pid)
    requires Inv(s) && CanWait(s, p)
    ensures Inv(Wait(s, p, c).0)
  {
    var s' := Wait(s, p, c).0;
    if FindChild(s, s.procs[p].children, c).Some? {
      forall q | q in s'.procs
        ensures ProcOk(s', q)
      {
        assert ProcOk(s, q);
      }
      SameLists(s, s');
      forall q, j | q in s'.procs && j in s'.infos
        ensures OwnerOk(s', q, j)
      {
        assert OwnerOk(s, q, j);
      }
    }
  }

  lemma ReturnWaitKeeps(s: State, p: Pid)
    requires Inv(s) && CanReturnWait(s, p)
    ensures Inv(ReturnWait(s, p).0)
  {
    var s', i := ReturnWait(s, p).0, s.procs[p].place.info;
    assert ProcOk(s, p) && InfoOk(s, i);
    WithoutContents(s.procs[p].children, i);
    ReturnWaitProcs(s, p);
    forall j | j in s'.infos
      ensures InfoOk(s', j) && Owned(s', j)
    {
      assert InfoOk(s, j) && Owned(s, j);
      var q :| q in s.procs && j in s.procs[q].children;
      assert j in s'.procs[q].children;
    }
    forall q, j | q in s'.procs && j in s'.infos
      ensures OwnerOk(s', q, j)
    {
      assert OwnerOk(s, q, j);
    }
    forall q, r, j | q in s'.procs && r in s'.procs && j in s'.procs[q].children && j in s'.procs[r].children
      ensures q == r
    {
      assert j in s.procs[q].children && j in s.procs[r].children;
    }
  }

  lemma ReturnWaitProcs(s: State, p: Pid)
    requires Inv(s) && CanReturnWait(s, p)
    ensures ProcsOk(ReturnWait(s, p).0)
  {
    var s', i := ReturnWait(s, p).0, s.procs[p].place.info;
    assert ProcOk(s, p) && InfoOk(s, i);
    WithoutContents(s.procs[p].children, i);
    forall q | q in s'.procs
      ensures ProcOk(s', q)
    {
      assert ProcOk(s, q);
      forall j | j in s'.procs[q].children ensures j in s'.infos {
        assert j in s.procs[q].children && j in s.infos;
        assert i in s.procs[p].children;
      }
    }
  }
}
