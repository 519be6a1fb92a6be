/**
 Laws of exec, wait and exit over every step and run: where a process is, who is alive, and that a call comes back to
 its caller about the child it was made for.
 */
module ProcessLaws {
  import opened Lists
  import opened Processes
  import opened ProcessResults
  import opened ProcessRuns

  /** The step in which p ends. */
  ghost predicate Ends(e: Step, p: Pid) {
    match e
    case ExitStep(q, _) => q == p
    case KillStep(q) => q == p
    case LoadStep(q, success) => q == p && !success
    case _ => false
  }

  /** The process that takes a step. */
  function Actor(e: Step): Pid { e.p }

  /** A process is born by an exec, with the next id and still to be loaded, and ends only by its own step. */
  lemma AliveNext(s: State, e: Step, p: Pid)
    requires Inv(s) && Enabled(s, e)
    ensures p in Next(s, e).procs <==> (p in s.procs && !Ends(e, p)) || (e.ExecStep? && p == s.nextPid)
    ensures e.ExecStep? ==>
      s.nextPid !in s.procs && Next(s, e).procs[s.nextPid] == Process([], Some(s.nextInfo), Loading)
  {
    if e.ExecStep? { ExecFresh(s); }
    match e
    case ExitStep(q, status) => ExitKeeps(s, q, status);
    case KillStep(q) => KillKeeps(s, q);
    case LoadStep(q, success) => if !success { LoadFailKeeps(s, q); }
    case WaitStep(q, c) => WaitFindsChildren(s, q, c);
    case _ =>
  }

  /** A process changes its place only by its own step, and then goes on running unless it has to sleep: on the record
      of the child it has just made, or on that of the child it waits for. */
  ghost predicate PlaceNext(s: State, e: Step, s': State, p: Pid)
    requires p in s.procs && p in s'.procs
  {
    var place, place' := s.procs[p].place, s'.procs[p].place;
    if Actor(e) != p then place' == place
    else
      match e
      case ExecStep(_) => place' == InExec(s.nextInfo)
      case WaitStep(_, c) =>
        if !Waitable(s, p, c) then place' == Running
        else
          && place'.InWait? && place'.info in s.procs[p].children
          && place'.info in s.infos && s.infos[place'.info].pid == c
      case _ => place' == Running
  }

  lemma StepPlace(s: State, e: Step, p: Pid)
    requires Inv(s) && Enabled(s, e) && p in s.procs && p in Next(s, e).procs
    ensures PlaceNext(s, e, Next(s, e), p)
  {
    match e
    case ExecStep(q) => ExecFresh(s);
    case ExitStep(q, status) => ExitKeeps(s, q, status);
    case KillStep(q) => KillKeeps(s, q);
    case LoadStep(q, success) => if !success { LoadFailKeeps(s, q); }
    case WaitStep(q, c) =>
      WaitFindsChildren(s, q, c);
      assert ProcOk(s, q);
    case _ =>
  }

  /** A call that comes back leaves its caller free to go on: it can exec, wait and exit. */
  lemma ReturnsRunning(s: State, e: Step, p: Pid)
    requires Inv(s) && Enabled(s, e) && (e == ReturnExecStep(p) || e == ReturnWaitStep(p))
    ensures var s' := Next(s, e);
      && p in s.procs && p in s'.procs && CanExec(s', p) && CanWait(s', p) && CanExit(s', p)
      && s'.procs[p].pInfo == s.procs[p].pInfo
      && s'.procs[p].children ==
           if e.ReturnWaitStep? then Without(s.procs[p].children, s.procs[p].place.info) else s.procs[p].children
  {
    StepKeeps(s, e);
    AliveNext(s, e, p);
    StepPlace(s, e, p);
    NothingDangles(Next(s, e), p);
  }

  /** A record is about the same process for as long as it exists, and its owner keeps it until its wait for it or its
      own end. */
  lemma RecordNext(s: State, e: Step, p: Pid, i: InfoId)
    requires Inv(s) && Enabled(s, e) && p in s.procs && i in s.procs[p].children && i in s.infos
    requires !Ends(e, p) && !(e == ReturnWaitStep(p) && s.procs[p].place.info == i)
    ensures var s' := Next(s, e);
      && p in s'.procs && i in s'.procs[p].children && i in s'.infos && s'.infos[i].pid == s.infos[i].pid
  {
    AliveNext(s, e, p);
    assert ProcOk(s, p);
    match e
    case ExitStep(q, status) =>
      ExitKeeps(s, q, status);
      StillThere(s, Next(s, e), q, status, p, i);
    case KillStep(q) =>
      KillKeeps(s, q);
      StillThere(s, Next(s, e), q, -1, p, i);
    case LoadStep(q, success) =>
      if !success {
        LoadFailKeeps(s, q);
        StillThere(s, Next(s, e), q, -1, p, i);
      }
    case WaitStep(q, c) => WaitFindsChildren(s, q, c);
    case ExecStep(q) => ExecFresh(s);
    case ReturnWaitStep(q) =>
      assert ProcOk(s, q);
      WithoutContents(s.procs[q].children, s.procs[q].place.info);
      assert i in s.procs[q].children ==> q == p;
    case _ =>
  }

  lemma StillThere(s: State, s': State, q: Pid, status: int, p: Pid, i: InfoId)
    requires Inv(s) && q in s.procs && Left(s, s', q, status) && p in s'.procs && p in s.procs && p != q
    requires i in s.procs[p].children && i in s.infos
    ensures i in s'.procs[p].children && i in s'.infos && s'.infos[i].pid == s.infos[i].pid
  {
    assert s'.procs[p] == Forget(s.procs[p], s.procs[q].children);
    assert i in s.procs[q].children ==> q == p;
  }

  // ----- over whole runs -----

  /** p sleeps in exec on the record i about c, or in wait. */
  ghost predicate SleepsOn(s: State, p: Pid, place: Place, i: InfoId, c: Pid) {
    && p in s.procs && s.procs[p].place == place && i in s.procs[p].children && i in s.infos && s.infos[i].pid == c
  }

  /** From step k up to m no call of p's comes back. */
  ghost predicate StaysInside(steps: seq<Step>, k: nat, m: nat, p: Pid)
    requires m <= |steps|
  {
    forall j {:trigger steps[j]} :: k <= j < m ==> steps[j] != ReturnExecStep(p) && steps[j] != ReturnWaitStep(p)
  }

  /** Until the call returns, p sleeps where it is: nothing else can be done by it or to it. */
  lemma {:induction false} SleepsOnUntil(
      run: seq<State>, steps: seq<Step>, k: nat, m: nat, p: Pid, place: Place, i: InfoId, c: Pid)
    requires IsRun(run, steps) && Inv(run[0]) && k <= m < |run|
    requires (place == InExec(i) || place == InWait(i)) && SleepsOn(run[k], p, place, i, c)
    requires StaysInside(steps, k, m, p)
    ensures SleepsOn(run[m], p, place, i, c)
  {
    if k < m {
      SleepsOnUntil(run, steps, k, m - 1, p, place, i, c);
      RunKeeps(run, steps, m - 1);
      assert Enabled(run[m - 1], steps[m - 1]);
      assert Actor(steps[m - 1]) != p;
      RecordNext(run[m - 1], steps[m - 1], p, i);
      StepPlace(run[m - 1], steps[m - 1], p);
    }
  }

  /** `process_wait (c)` that sleeps comes back about c and no other child. */
  lemma WaitCollects(run: seq<State>, steps: seq<Step>, k: nat, m: nat, p: Pid, c: Pid)
    requires IsRun(run, steps) && Inv(run[0]) && k < m < |steps|
    requires steps[k] == WaitStep(p, c) && CanWait(run[k], p) && Waitable(run[k], p, c)
    requires steps[m] == ReturnWaitStep(p) && CanReturnWait(run[m], p)
    requires StaysInside(steps, k + 1, m, p)
    ensures Collected(run[m], p) == c
  {
    RunKeeps(run, steps, k);
    assert Enabled(run[k], steps[k]);
    AliveNext(run[k], steps[k], p);
    StepPlace(run[k], steps[k], p);
    var i := run[k + 1].procs[p].place.info;
    RecordNext(run[k], steps[k], p, i);
    SleepsOnUntil(run, steps, k + 1, m, p, InWait(i), i, c);
  }

  /** `process_execute` comes back about the child it made, and with its id exactly if that was loaded. */
  lemma ExecReturnsItsChild(run: seq<State>, steps: seq<Step>, k: nat, m: nat, p: Pid)
    requires IsRun(run, steps) && Inv(run[0]) && k < m < |steps|
    requires steps[k] == ExecStep(p) && steps[m] == ReturnExecStep(p) && CanReturnExec(run[m], p)
    requires StaysInside(steps, k + 1, m, p)
    ensures var c := run[k].nextPid;
      ReturnExec(run[m], p).1 ==
        if exists j {:trigger steps[j]} :: k < j < m && steps[j] == LoadStep(c, true) then c else -1
  {
    RunKeeps(run, steps, k);
    assert Enabled(run[k], steps[k]);
    ExecFresh(run[k]);
    var i, c := run[k].nextInfo, run[k].nextPid;
    RunKeeps(run, steps, m);
    SleepsOnUntil(run, steps, k + 1, m, p, InExec(i), i, c);
    LoadedBy(run, steps, k + 1, m, p, i, c);
    assert InfoOk(run[m], i);
  }

  /** The outcome of the load is in the record exactly since the child's own step. */
  lemma {:induction false} LoadedBy(run: seq<State>, steps: seq<Step>, k: nat, m: nat, p: Pid, i: InfoId, c: Pid)
    requires IsRun(run, steps) && Inv(run[0]) && k <= m < |run|
    requires SleepsOn(run[k], p, InExec(i), i, c) && run[k].infos[i].success.None?
    requires StaysInside(steps, k, m, p)
    ensures i in run[m].infos
    ensures run[m].infos[i].success == Some(true) <==>
      exists j {:trigger steps[j]} :: k <= j < m && steps[j] == LoadStep(c, true)
  {
    SleepsOnUntil(run, steps, k, m, p, InExec(i), i, c);
    if k < m {
      LoadedBy(run, steps, k, m - 1, p, i, c);
      SleepsOnUntil(run, steps, k, m - 1, p, InExec(i), i, c);
      RunKeeps(run, steps, m - 1);
      assert Enabled(run[m - 1], steps[m - 1]);
      StartUppedOnce(run[m - 1], steps[m - 1], i);
      if steps[m - 1] == LoadStep(c, true) { LoadSettles(run[m - 1], c, i); }
    }
  }

  lemma LoadSettles(s: State, c: Pid, i: InfoId)
    requires Inv(s) && CanLoad(s, c) && i in s.infos && s.infos[i].pid == c
    ensures i in LoadOk(s, c).infos && LoadOk(s, c).infos[i].success == Some(true)
  {
    assert ProcOk(s, c) && InfoOk(s, s.procs[c].pInfo.value);
    assert s.infos[s.procs[c].pInfo.value].pid == c;
  }
}
