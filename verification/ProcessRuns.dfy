/**
 What exec, wait and exit promise over whole runs: no step touches a freed record, `process_wait` gives
 each child's exit status once and -1 ever after, and nobody sleeps on a semaphore that is never upped.
 */
module ProcessRuns {
  import opened Lists
  import opened Processes
  import opened ProcessResults

  datatype Step =
    | ExecStep(p: Pid)
    | ReturnExecStep(p: Pid)
    | LoadStep(p: Pid, success: bool)
    | ExitStep(p: Pid, status: int)
    | KillStep(p: Pid)
    | WaitStep(p: Pid, c: Pid)
    | ReturnWaitStep(p: Pid)

  ghost predicate Enabled(s: State, e: Step) {
    match e
    case ExecStep(p) => CanExec(s, p)
    case ReturnExecStep(p) => CanReturnExec(s, p)
    case LoadStep(c, _) => CanLoad(s, c)
    case ExitStep(c, _) => CanExit(s, c)
    case KillStep(c) => CanExit(s, c)
    case WaitStep(p, _) => CanWait(s, p)
    case ReturnWaitStep(p) => CanReturnWait(s, p)
  }

  function Next(s: State, e: Step): State
    requires Enabled(s, e)
  {
    match e
    case ExecStep(p) => Exec(s, p)
    case ReturnExecStep(p) => ReturnExec(s, p).0
    case LoadStep(c, success) => if success then LoadOk(s, c) else LoadFail(s, c)
    case ExitStep(c, status) => Exit(s, c, status)
    case KillStep(c) => Kill(s, c)
    case WaitStep(p, c) => Wait(s, p, c).0
    case ReturnWaitStep(p) => ReturnWait(s, p).0
  }

  /** The states a run goes through, each step enabled in the state before it. */
  ghost predicate IsRun(run: seq<State>, steps: seq<Step>) {
    && |run| == |steps| + 1
    && forall k {:trigger steps[k]} :: 0 <= k < |steps| ==>
      Enabled(run[k], steps[k]) && run[k + 1] == Next(run[k], steps[k])
  }

  lemma StepKeeps(s: State, e: Step)
    requires Inv(s) && Enabled(s, e)
    ensures Inv(Next(s, e))
  {
    match e
    case ExecStep(p) => ExecKeeps(s, p);
    case ReturnExecStep(p) => ReturnExecKeeps(s, p);
    case LoadStep(c, success) => if success { LoadOkKeeps(s, c); } else { LoadFailKeeps(s, c); }
    case ExitStep(c, status) => ExitKeeps(s, c, status);
    case KillStep(c) => KillKeeps(s, c);
    case WaitStep(p, c) => WaitKeeps(s, p, c);
    case ReturnWaitStep(p) => ReturnWaitKeeps(s, p);
  }

  lemma {:induction false} RunKeeps(run: seq<State>, steps: seq<Step>, k: nat)
    requires IsRun(run, steps) && Inv(run[0]) && k < |run|
    ensures Inv(run[k])
  {
    if k > 0 {
      RunKeeps(run, steps, k - 1);
      assert Enabled(run[k - 1], steps[k - 1]);
      StepKeeps(run[k - 1], steps[k - 1]);
    }
  }

  // ----- no step reads what has been freed; nobody sleeps for ever -----

  /** Whatever a live process is about to do, the records it will read exist; and one that sleeps can go on,
      or the child it sleeps for is still loading (exec) or still alive (wait). */
  lemma NothingDangles(s: State, p: Pid)
    requires Inv(s) && p in s.procs
    ensures match s.procs[p].place
      case Loading => CanLoad(s, p)
      case Running => CanExec(s, p) && CanExit(s, p) && CanWait(s, p)
      case InExec(i) =>
        && i in s.infos
        && (CanReturnExec(s, p) <==> s.infos[i].start > 0)
        && (CanReturnExec(s, p) || (s.infos[i].pid in s.procs && s.procs[s.infos[i].pid].place.Loading?))
      case InWait(i) =>
        i in s.infos && (CanReturnWait(s, p) <==> s.infos[i].pid !in s.procs)
  {
    assert ProcOk(s, p);
    match s.procs[p].place
    case Loading =>
    case Running =>
      if s.procs[p].pInfo.Some? { assert InfoOk(s, s.procs[p].pInfo.value); }
    case InExec(i) =>
      assert InfoOk(s, i) && OwnerOk(s, p, i);
    case InWait(i) =>
      assert InfoOk(s, i) && OwnerOk(s, p, i);
  }

  /** There is no waiting in circles: as long as a process is alive, one of them can take a step. */
  lemma SomeoneCanGo(s: State)
    requires Inv(s) && s.procs.Keys != {}
    ensures exists e :: Enabled(s, e)
  {
    var p := Youngest(s.procs.Keys);
    NothingDangles(s, p);
    match s.procs[p].place
    case Loading => assert Enabled(s, LoadStep(p, true));
    case Running => assert Enabled(s, ExecStep(p));
    case InExec(i) =>
      assert ProcOk(s, p) && OwnerOk(s, p, i);
      assert Enabled(s, ReturnExecStep(p));
    case InWait(i) =>
      assert ProcOk(s, p) && OwnerOk(s, p, i);
      assert Enabled(s, ReturnWaitStep(p));
  }

  lemma {:induction false} Youngest(pids: set<Pid>) returns (p: Pid)
    requires pids != {}
    ensures p in pids && forall q <- pids :: q <= p
  {
    p :| p in pids;
    if pids != {p} {
      var q := Youngest(pids - {p});
      assert forall x <- pids :: x == p || x in pids - {p};
      if q > p { p := q; }
    }
  }

  // ----- process_wait over a run -----

  /** `process_wait (c)` would block, or return at once with a status: some record of p's is about c. */
  ghost predicate Waitable(s: State, p: Pid, c: Pid) {
    && p in s.procs
    && exists i {:trigger s.infos[i]} :: i in s.procs[p].children && i in s.infos && s.infos[i].pid == c
  }

  /** The child about which a `process_wait` is coming back. */
  function Collected(s: State, p: Pid): Pid
    requires CanReturnWait(s, p)
  {
    s.infos[s.procs[p].place.info].pid
  }

  lemma WaitFindsChildren(s: State, p: Pid, c: Pid)
    requires Inv(s) && CanWait(s, p)
    ensures Wait(s, p, c).1 == None <==> Waitable(s, p, c)
    ensures Wait(s, p, c).1.Some? ==> Wait(s, p, c) == (s, Some(-1))
    ensures Wait(s, p, c).1.None? ==>
      var i := Wait(s, p, c).0.procs[p].place.info;
      Wait(s, p, c).0 == WithProc(s, p, s.procs[p].(place := InWait(i))) && i in s.infos && s.infos[i].pid == c
  {
    var r := FindChild(s, s.procs[p].children, c);
    if r.Some? { assert s.infos[r.value].pid == c; }
  }

  /** A record p has in s about c is one p has in s'. */
  ghost predicate Carried(s: State, s': State, p: Pid, c: Pid)
    requires p in s.procs && p in s'.procs
  {
    forall i {:trigger s.infos[i]} :: i in s.procs[p].children && i in s.infos && s.infos[i].pid == c ==>
      i in s'.procs[p].children && i in s'.infos && s'.infos[i].pid == c
  }

  lemma CarriedWaitable(s: State, s': State, p: Pid, c: Pid)
    requires p in s.procs && p in s'.procs && Carried(s, s', p, c) && Waitable(s, p, c)
    ensures Waitable(s', p, c)
  {
    var i :| i in s.procs[p].children && i in s.infos && s.infos[i].pid == c;
    assert s'.infos[i].pid == c;
  }

  /** Only p's own exec makes a process p's child, and only p's own completed wait (or p's end) ends that. */
  lemma WaitableNext(s: State, e: Step, p: Pid, c: Pid)
    requires Inv(s) && Enabled(s, e) && p in s.procs && p in Next(s, e).procs
    ensures Waitable(Next(s, e), p, c) <==>
      ((Waitable(s, p, c) && !(e == ReturnWaitStep(p) && c == Collected(s, p))) || (e == ExecStep(p) && c == s.nextPid))
  {
    var s' := Next(s, e);
    match e
    case ExecStep(q) => ExecWaitable(s, q, p, c);
    case ReturnWaitStep(q) => ReturnWaitWaitable(s, q, p, c);
    case ExitStep(q, status) =>
      ExitKeeps(s, q, status);
      LeftWaitable(s, s', q, status, p, c);
    case KillStep(q) =>
      KillKeeps(s, q);
      LeftWaitable(s, s', q, -1, p, c);
    case LoadStep(q, success) =>
      if !success {
        LoadFailKeeps(s, q);
        LeftWaitable(s, s', q, -1, p, c);
      } else {
        SameWaitable(s, s', p, c);
      }
    case ReturnExecStep(_) => SameWaitable(s, s', p, c);
    case WaitStep(q, d) =>
      WaitFindsChildren(s, q, d);
      SameWaitable(s, s', p, c);
  }

  lemma SameWaitable(s: State, s': State, p: Pid, c: Pid)
    requires p in s.procs && p in s'.procs && s'.procs[p].children == s.procs[p].children
    requires s'.infos.Keys == s.infos.Keys
    requires forall i {:trigger s.infos[i]} {:trigger s'.infos[i]} :: i in s.infos ==> s.infos[i].pid == s'.infos[i].pid
    ensures Waitable(s', p, c) <==> Waitable(s, p, c)
  {
    if Waitable(s, p, c) { CarriedWaitable(s, s', p, c); }
    if Waitable(s', p, c) { CarriedWaitable(s', s, p, c); }
  }

  lemma ExecWaitable(s: State, q: Pid, p: Pid, c: Pid)
    requires Inv(s) && CanExec(s, q) && p in s.procs
    ensures Waitable(Exec(s, q), p, c) <==> Waitable(s, p, c) || (p == q && c == s.nextPid)
  {
    var s', i := Exec(s, q), s.nextInfo;
    ExecFresh(s);
    assert s'.infos[i].pid == s.nextPid;
    if Waitable(s, p, c) { CarriedWaitable(s, s', p, c); }
    if Waitable(s', p, c) && c != s.nextPid { CarriedWaitable(s', s, p, c); }
    if Waitable(s', p, c) && p != q { CarriedWaitable(s', s, p, c); }
  }

  lemma ReturnWaitWaitable(s: State, q: Pid, p: Pid, c: Pid)
    requires Inv(s) && CanReturnWait(s, q) && p in s.procs
    ensures Waitable(ReturnWait(s, q).0, p, c) <==> Waitable(s, p, c) && !(p == q && c == Collected(s, q))
  {
    var s', i := ReturnWait(s, q).0, s.procs[q].place.info;
    assert ProcOk(s, q);
    WithoutContents(s.procs[q].children, i);
    if Waitable(s', p, c) { CarriedWaitable(s', s, p, c); }
    if Waitable(s, p, c) && p != q { CarriedWaitable(s, s', p, c); }
    if Waitable(s, p, c) && c != Collected(s, q) { CarriedWaitable(s, s', p, c); }
  }

  lemma LeftWaitable(s: State, s': State, q: Pid, status: int, p: Pid, c: Pid)
    requires Inv(s) && q in s.procs && Left(s, s', q, status) && p in s'.procs
    ensures Waitable(s', p, c) <==> Waitable(s, p, c)
  {
    assert s'.procs[p] == Forget(s.procs[p], s.procs[q].children);
    if Waitable(s, p, c) { CarriedWaitable(s, s', p, c); }
    if Waitable(s', p, c) { CarriedWaitable(s', s, p, c); }
  }

  // ----- statuses -----

  /** The only statuses recorded are the leaver's own: what it passed to exit, or -1; and they stay. */
  lemma EndedNext(s: State, e: Step)
    requires Inv(s) && Enabled(s, e)
    ensures Next(s, e).ended == match e
      case ExitStep(c, status) => s.ended[c := status]
      case KillStep(c) => s.ended[c := -1]
      case LoadStep(c, success) => if success then s.ended else s.ended[c := -1]
      case _ => s.ended
    ensures forall c <- s.ended :: c in Next(s, e).ended && Next(s, e).ended[c] == s.ended[c]
  {
    match e
    case ExitStep(c, status) =>
      ExitKeeps(s, c, status);
      assert ProcOk(s, c);
    case KillStep(c) =>
      KillKeeps(s, c);
      assert ProcOk(s, c);
    case LoadStep(c, success) =>
      assert ProcOk(s, c);
      if !success { LoadFailKeeps(s, c); }
    case _ =>
  }

  /** `process_wait` comes back with the child's status, and from then on nobody can wait for that child. */
  lemma WaitReturnsStatus(s: State, p: Pid)
    requires Inv(s) && CanReturnWait(s, p)
    ensures var c := Collected(s, p);
      && c in s.ended && ReturnWait(s, p).1 == s.ended[c]
      && NoRecord(ReturnWait(s, p).0, c)
  {
    assert InfoOk(s, s.procs[p].place.info);
  }

  /** c is an old id, and no record is about it. */
  ghost predicate NoRecord(s: State, c: Pid) {
    c < s.nextPid && forall i {:trigger s.infos[i]} :: i in s.infos ==> s.infos[i].pid != c
  }

  lemma NoRecordStays(s: State, e: Step, c: Pid)
    requires Inv(s) && Enabled(s, e) && NoRecord(s, c)
    ensures NoRecord(Next(s, e), c)
  {
    match e
    case ExitStep(q, status) => ExitKeeps(s, q, status);
    case KillStep(q) => KillKeeps(s, q);
    case LoadStep(q, success) => if !success { LoadFailKeeps(s, q); }
    case WaitStep(q, d) => WaitFindsChildren(s, q, d);
    case _ =>
  }

  lemma {:induction false} NoRecordForEver(run: seq<State>, steps: seq<Step>, k: nat, m: nat, c: Pid)
    requires IsRun(run, steps) && Inv(run[0]) && k <= m < |run| && NoRecord(run[k], c)
    ensures NoRecord(run[m], c)
  {
    if k < m {
      NoRecordForEver(run, steps, k, m - 1, c);
      RunKeeps(run, steps, m - 1);
      assert Enabled(run[m - 1], steps[m - 1]);
      NoRecordStays(run[m - 1], steps[m - 1], c);
    }
  }

  lemma {:induction false} EndedForEver(run: seq<State>, steps: seq<Step>, k: nat, m: nat, c: Pid)
    requires IsRun(run, steps) && Inv(run[0]) && k <= m < |run| && c in run[k].ended
    ensures c in run[m].ended && run[m].ended[c] == run[k].ended[c]
  {
    if k < m {
      EndedForEver(run, steps, k, m - 1, c);
      RunKeeps(run, steps, m - 1);
      assert Enabled(run[m - 1], steps[m - 1]);
      EndedNext(run[m - 1], steps[m - 1]);
    }
  }

  /** The status a child passes to exit is what any later `process_wait` for it returns... */
  lemma ExitStatusDelivered(run: seq<State>, steps: seq<Step>, k: nat, m: nat, c: Pid, status: int, p: Pid)
    requires IsRun(run, steps) && Inv(run[0]) && k < m < |steps|
    requires steps[k] == ExitStep(c, status) || (steps[k] in {KillStep(c), LoadStep(c, false)} && status == -1)
    requires Enabled(run[m], steps[m]) && steps[m] == ReturnWaitStep(p) && Collected(run[m], p) == c
    ensures ReturnWait(run[m], p).1 == status
  {
    RunKeeps(run, steps, k);
    RunKeeps(run, steps, m);
    assert Enabled(run[k], steps[k]);
    EndedNext(run[k], steps[k]);
    EndedForEver(run, steps, k + 1, m, c);
    WaitReturnsStatus(run[m], p);
  }

  /** ... and it is returned once: every wait for that child begun afterwards, by anyone, returns -1 at once. */
  lemma CollectedOnce(run: seq<State>, steps: seq<Step>, k: nat, m: nat, p: Pid, q: Pid)
    requires IsRun(run, steps) && Inv(run[0]) && k < m < |run|
    requires steps[k] == ReturnWaitStep(p) && CanReturnWait(run[k], p) && CanWait(run[m], q)
    ensures Wait(run[m], q, Collected(run[k], p)) == (run[m], Some(-1))
  {
    RunKeeps(run, steps, k);
    RunKeeps(run, steps, m);
    assert Enabled(run[k], steps[k]);
    WaitReturnsStatus(run[k], p);
    NoRecordForEver(run, steps, k + 1, m, Collected(run[k], p));
    WaitFindsChildren(run[m], q, Collected(run[k], p));
  }

  // ----- records -----

  /** A step frees records only by completing a wait (that record) or by leaving (the leaver's list), never
      twice: a freed record's address is below `nextInfo`, and stays unallocated. */
  lemma FreedOnce(s: State, e: Step, i: InfoId)
    requires Inv(s) && Enabled(s, e) && i < s.nextInfo
    ensures i !in s.infos ==> i !in Next(s, e).infos
    ensures i in s.infos && i !in Next(s, e).infos ==>
      match e
      case ReturnWaitStep(p) => i == s.procs[p].place.info
      case ExitStep(c, _) => i in s.procs[c].children
      case KillStep(c) => i in s.procs[c].children
      case _ => false
  {
    match e
    case ExitStep(q, status) => ExitKeeps(s, q, status);
    case KillStep(q) => KillKeeps(s, q);
    case LoadStep(q, success) => if !success { LoadFailKeeps(s, q); }
    case WaitStep(q, d) => WaitFindsChildren(s, q, d);
    case _ =>
  }

  /** `sema_start` is upped in the one step that settles `success`, and `success` never changes again. */
  lemma StartUppedOnce(s: State, e: Step, i: InfoId)
    requires Inv(s) && Enabled(s, e) && i in s.infos && i in Next(s, e).infos
    ensures var r, r' := s.infos[i], Next(s, e).infos[i];
      && (r.success.Some? ==> r'.success == r.success && r'.start <= r.start)
      && (r.success.None? ==> r'.start == r.start + if r'.success.Some? then 1 else 0)
      && (r.success.None? && r'.success.Some? ==> e == LoadStep(r.pid, r'.success.value))
  {
    var s' := Next(s, e);
    assert InfoOk(s, i);
    match e
    case ExitStep(q, status) =>
      ExitKeeps(s, q, status);
      LeaverStarted(s, s', q, status, i);
    case KillStep(q) =>
      KillKeeps(s, q);
      LeaverStarted(s, s', q, -1, i);
    case LoadStep(q, success) =>
      assert ProcOk(s, q);
      if !success { LoadFailKeeps(s, q); }
    case WaitStep(q, d) => WaitFindsChildren(s, q, d);
    case _ =>
  }

  lemma LeaverStarted(s: State, s': State, q: Pid, status: int, i: InfoId)
    requires Inv(s) && q in s.procs && s.procs[q].place.Running? && Left(s, s', q, status)
    requires i in s.infos && i in s'.infos
    ensures s'.infos[i].start == s.infos[i].start && s'.infos[i].success == s.infos[i].success
  {
    assert InfoOk(s, i) && ProcOk(s, q);
    if s.procs[q].pInfo == Some(i) { assert s.infos[i].pid == q && s.infos[i].success.value; }
  }

  /** `process_execute` returns the child's id exactly when it was loaded, and then it is p's to wait for. */
  lemma ExecReturnsChild(s: State, p: Pid)
    requires Inv(s) && CanReturnExec(s, p)
    ensures var (s', r) := ReturnExec(s, p);
      var i := s.procs[p].place.info;
      if s.infos[i].success == Some(true)
      then r >= 0 && Waitable(s', p, r) && (r in s.procs || r in s.ended)
      else r == -1 && s.infos[i].pid in s.ended && s.ended[s.infos[i].pid] == s.infos[i].exitStatus
  {
    var i := s.procs[p].place.info;
    assert ProcOk(s, p) && InfoOk(s, i);
    assert ReturnExec(s, p).0.infos[i].pid == s.infos[i].pid;
    if !s.infos[i].success.value { assert s.infos[i].success == Some(false); }
  }
}
