/**
 Fairness of the scheduler: among threads of one priority the one that has been ready longest runs first.
 */
module RoundRobin {
  import opened Lists
  import opened Threads
  import opened Donation
  import opened DonationSteps
  import opened SchedulerLaws

  /** u is not running and w, which is ready, comes before it: the list is served from the back. */
  ghost predicate Behind(s: State, u: Tid, w: Tid) {
    w in s.ready && u != s.current && (u in s.ready ==> Before(s.ready, u, w))
  }

  ghost predicate Outranks(s: State, w: Tid, u: Tid) {
    w in s.threads && (u in s.threads ==> s.threads[u].priority <= s.threads[w].priority)
  }

  /** The same, with the running thread on its way to give up the processor. */
  ghost predicate Queued(s: State, u: Tid, w: Tid) {
    && ListsOk(s) && Distinct(s.ready) && w in s.ready && (u in s.ready ==> Before(s.ready, u, w))
  }

  /** Taking out the last of the largest of a list leaves b behind a, unless it takes b. */
  lemma LastTaken(xs: seq<Tid>, keys: seq<int>, m: nat, a: Tid, b: Tid)
    requires Distinct(xs) && |keys| == |xs| && LastLargest(keys, m) && Before(xs, a, b) && b in RemoveAt(xs, m)
    requires forall i, j :: 0 <= i < |xs| && 0 <= j < |xs| && xs[i] == a && xs[j] == b ==> keys[i] <= keys[j]
    ensures xs[m] != a && Before(RemoveAt(xs, m), a, b)
  {
    RemoveDistinct(xs, m);
    var i, j :| 0 <= i < j < |xs| && xs[i] == a && xs[j] == b;
    assert j != m && keys[i] <= keys[j];
    assert i != m;
    var rest := RemoveAt(xs, m);
    assert rest[if i < m then i else i - 1] == a && rest[if j < m then j else j - 1] == b;
  }

  /** `schedule` never passes over a thread that has been ready longer for one of no higher priority. */
  lemma ScheduleTurn(s: State, u: Tid, w: Tid)
    requires Queued(s, u, w) && Outranks(Schedule(s), w, u) && w in Schedule(s).ready
    ensures Behind(Schedule(s), u, w)
  {
    DispatchSame(s);
    var keys := Keys(s, s.ready);
    var m := MaxIndex(keys, PriorityLess());
    LastOfTheLargest(keys);
    RemoveDistinct(s.ready, m);
    assert s.ready[m] in s.ready;
    if u in s.ready { LastTaken(s.ready, keys, m, u, w); }
  }

  lemma PushBefore(x: Tid, xs: seq<Tid>, u: Tid, w: Tid)
    requires w in xs && (x == u || Before(xs, u, w))
    ensures Before([x] + xs, u, w)
  {
    var ys := [x] + xs;
    if x == u {
      var j :| 0 <= j < |xs| && xs[j] == w;
      assert ys[0] == u && ys[j + 1] == w;
    } else {
      var i, j :| 0 <= i < j < |xs| && xs[i] == u && xs[j] == w;
      assert ys[i + 1] == u && ys[j + 1] == w;
    }
  }

  /** A thread that becomes ready or yields goes behind all that are ready. */
  lemma YieldTurn(s: State, u: Tid, w: Tid)
    requires Scheduling(s) && w in s.ready && (u in s.ready ==> Before(s.ready, u, w))
    requires ListsOk(s) && Outranks(Yield(s), w, u) && w in Yield(s).ready
    ensures Behind(Yield(s), u, w)
  {
    PutBackQueues(s);
    if s.current != s.idle && (u == s.current || u in s.ready) { PushBefore(s.current, s.ready, u, w); }
    ScheduleTurn(PutBack(s), u, w);
  }

  /** What every step keeps, for a thread w that has been ready longer than u and of no lower priority: u does not run
      again before w does, and if it is running it gives way to w in the first step that schedules. */
  lemma TurnNext(s: State, a: Step, u: Tid, w: Tid)
    requires Inv(s) && Enabled(s, a) && w in s.ready && (Behind(s, u, w) || u == s.current)
    requires w in Next(s, a).ready && Outranks(Next(s, a), w, u)
    ensures Behind(Next(s, a), u, w) || (u == s.current == Next(s, a).current && !Schedules(s, a))
  {
    match a
    case AcquireStep(l) => if s.locks[l].holder.Some? { AcquireTurn(s, l, u, w); }
    case RetryStep(l) => if s.locks[l].holder.Some? { SleepTurn(s, FallAsleep(s, l), u, w); }
    case ReleaseStep(l) => ReleaseTurn(s, l, u, w);
    case FinishReleaseStep => FinishTurn(s, u, w);
    case SetPriorityStep(p) => SetTurn(s, p, u, w);
    case YieldStep => YieldTurn(s, u, w);
    case BlockStep => SleepTurn(s, FallAsleepElsewhere(s), u, w);
    case UnblockStep(t) => if t == u || u in s.ready { PushBefore(t, s.ready, u, w); }
    case CreateStep(t, p) => CreateTurn(s, t, p, u, w);
  }

  lemma AcquireTurn(s: State, l: LockId, u: Tid, w: Tid)
    requires Inv(s) && CanAcquire(s, l) && s.locks[l].holder.Some?
    requires w in s.ready && (Behind(s, u, w) || u == s.current)
    requires w in Acquire(s, l).ready && Outranks(Acquire(s, l), w, u)
    ensures Behind(Acquire(s, l), u, w)
  {
    DonatedSleep(s, l);
    SleepTurn(s, FallAsleep(Donate(s, l), l), u, w);
  }

  lemma DonatedSleep(s: State, l: LockId)
    requires CanAcquire(s, l) && s.locks[l].holder.Some? && s.locks[l].holder.value in s.threads
    requires s.locks[l].value == 0
    ensures ListsOk(Donate(s, l)) && l in Donate(s, l).locks
    ensures FallAsleep(Donate(s, l), l).ready == s.ready && Acquire(s, l) == Schedule(FallAsleep(Donate(s, l), l))
  {
    DonateProfiles(s, l);
    var h := s.locks[l].holder.value;
    AllChainsOk(s, Push(s, l, h));
    assert OnlyPriorities(Push(s, l, h), Propagate(Push(s, l, h), PathFrom(s, h)));
  }

  lemma FinishTurn(s: State, u: Tid, w: Tid)
    requires Inv(s) && CanFinish(s) && w in s.ready && (Behind(s, u, w) || u == s.current)
    requires w in FinishRelease(s).ready && Outranks(FinishRelease(s), w, u)
    ensures Behind(FinishRelease(s), u, w)
  {
    var s1 := UpdatePriority(s, s.current);
    YieldTurn(With(s1, s1.current, s1.threads[s1.current].(pc := Normal)), u, w);
  }

  lemma SetTurn(s: State, p: int, u: Tid, w: Tid)
    requires Inv(s) && CanSetPriority(s) && w in s.ready && (Behind(s, u, w) || u == s.current)
    requires w in SetPriority(s, p).ready && Outranks(SetPriority(s, p), w, u)
    ensures Behind(SetPriority(s, p), u, w)
  {
    BasedReady(s, p);
    YieldTurn(Based(s, p), u, w);
  }

  lemma BasedReady(s: State, p: int)
    requires Inv(s) && CanSetPriority(s)
    ensures Scheduling(Based(s, p)) && ListsOk(Based(s, p))
    ensures Based(s, p).ready == s.ready && Based(s, p).current == s.current
  {
    BasedIs(s, p);
  }

  lemma CreateTurn(s: State, t: Tid, p: int, u: Tid, w: Tid)
    requires Inv(s) && Enabled(s, CreateStep(t, p)) && w in s.ready && (Behind(s, u, w) || u == s.current)
    requires w in Create(s, t, p).ready && Outranks(Create(s, t, p), w, u)
    ensures Behind(Create(s, t, p), u, w)
  {
    BornQueues(s, t, p);
    if t == u || u in s.ready { PushBefore(t, s.ready, u, w); }
    YieldTurn(Born(s, t, p), u, w);
  }

  /** The running thread has gone to sleep and schedules. */
  lemma SleepTurn(s: State, d: State, u: Tid, w: Tid)
    requires Inv(s) && d.ready == s.ready && ListsOk(d)
    requires w in s.ready && (Behind(s, u, w) || u == s.current)
    requires w in Schedule(d).ready && Outranks(Schedule(d), w, u)
    ensures Behind(Schedule(d), u, w)
  {
    ScheduleTurn(d, u, w);
  }

  lemma ReleaseTurn(s: State, l: LockId, u: Tid, w: Tid)
    requires Inv(s) && CanRelease(s, l) && w in s.ready && (Behind(s, u, w) || u == s.current)
    requires w in Release(s, l).ready && Outranks(Release(s, l), w, u)
    ensures Behind(Release(s, l), u, w)
  {
    LetGoQueues(s, l);
    UpQueues(LetGo(s, l), l);
    var s1 := Up(LetGo(s, l), l);
    if s1.ready != s.ready && (s1.ready[0] == u || u in s.ready) { PushBefore(s1.ready[0], s.ready, u, w); }
    YieldTurn(s1, u, w);
  }

  /** In every state of the run w is ready and u is of no higher priority. */
  ghost predicate Waits(s: State, steps: seq<Step>, u: Tid, w: Tid)
    decreases |steps|
  {
    && w in s.ready && Outranks(s, w, u)
    && (steps != [] && Enabled(s, steps[0]) ==> Waits(Next(s, steps[0]), steps[1..], u, w))
  }

  /** Over any run: as long as w has to wait, a thread of no higher priority that gave way to it does not run. */
  lemma {:induction false} NotOvertaken(s: State, steps: seq<Step>, s': State, u: Tid, w: Tid)
    requires Inv(s) && SafeRun(s, steps, s') && Waits(s, steps, u, w) && Behind(s, u, w)
    ensures Behind(s', u, w)
    decreases |steps|
  {
    if steps != [] {
      StepKeeps(s, steps[0]);
      TurnNext(s, steps[0], u, w);
      NotOvertaken(Next(s, steps[0]), steps[1..], s', u, w);
    }
  }
}
