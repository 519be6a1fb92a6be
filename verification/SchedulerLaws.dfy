/**
 Laws of the scheduler over every step: who changes a base priority, where a thread is, who runs, and that no
 lock is left free with its waiters asleep.
 */
module SchedulerLaws {
  import opened Lists
  import opened Threads
  import opened Donation
  import opened DonationSteps
  import opened DonationResults
  import opened DonationLinks

  // ----- what scheduling leaves alone -----

  /** The same but for who runs and who is ready. */
  ghost predicate SameThreads(s: State, s': State) {
    && s'.threads.Keys == s.threads.Keys && s'.locks == s.locks && s'.idle == s.idle
    && forall t <- s.threads :: s'.threads[t] == s.threads[t].(status := s'.threads[t].status)
  }

  lemma YieldSame(s: State)
    requires ListsOk(s)
    ensures SameThreads(s, Schedule(s)) && SameThreads(s, Yield(s))
  {
    DispatchSame(s);
    DispatchSame(PutBack(s));
    SameOnwards(s, PutBack(s), Yield(s));
  }

  lemma SameOnwards(s: State, mid: State, s': State)
    requires SameThreads(s, mid) && SameThreads(mid, s')
    ensures SameThreads(s, s')
  {
    forall t <- s.threads
      ensures s'.threads[t] == s.threads[t].(status := s'.threads[t].status)
    {
      assert mid.threads[t] == s.threads[t].(status := mid.threads[t].status);
    }
  }

  lemma DispatchSame(s: State)
    requires ListsOk(s)
    ensures SameThreads(s, Schedule(s))
  {
    if s.ready != [] { assert s.ready[MaxIndex(Keys(s, s.ready), PriorityLess())] in s.ready; }
  }

  // ----- base priorities and places -----

  /** Who a thread is and where it continues. */
  datatype Profile = Profile(initPri: int, pc: Pc)

  function ProfileOf(s: State, t: Tid): Profile
    requires t in s.threads
  {
    Profile(s.threads[t].initPri, s.threads[t].pc)
  }

  /** Where the running thread continues after its step. */
  function NextPc(s: State, a: Step): Pc
    requires s.current in s.threads
  {
    match a
    case AcquireStep(l) => if l in s.locks && s.locks[l].holder.Some? then InDown(l) else Normal
    case RetryStep(l) => if l in s.locks && s.locks[l].holder.Some? then InDown(l) else Normal
    case ReleaseStep(_) => InRelease
    case FinishReleaseStep => Normal
    case BlockStep => if s.current == s.idle then Normal else Asleep
    case _ => s.threads[s.current].pc
  }

  /** A base priority changes only by the thread's own `thread_set_priority`, to its argument, and a place only by
      the thread's own step or when it is unblocked. */
  ghost predicate ProfileNext(s: State, a: Step, s': State, t: Tid) {
    && s.current in s.threads
    && (t in s.threads ==>
          && t in s'.threads
          && ProfileOf(s', t) == Profile(
               if a.SetPriorityStep? && t == s.current then a.priority else s.threads[t].initPri,
               if t == s.current then NextPc(s, a) else if a == UnblockStep(t) then Normal else s.threads[t].pc))
    && (t !in s.threads ==>
          && (t in s'.threads <==> a.CreateStep? && t == a.tid)
          && (t in s'.threads ==> ProfileOf(s', t) == Profile(a.priority, Normal)))
  }

  lemma StepProfile(s: State, a: Step, t: Tid)
    requires Inv(s) && Enabled(s, a)
    ensures ProfileNext(s, a, Next(s, a), t)
  {
    match a
    case AcquireStep(l) => AcquireProfile(s, l, t);
    case RetryStep(l) => DownProfile(s, s, l, t);
    case ReleaseStep(l) => ReleaseProfile(s, l, t);
    case SetPriorityStep(p) => SetProfile(s, p, t);
    case FinishReleaseStep =>
      var s1 := UpdatePriority(s, s.current);
      ScheduledProfile(s, a, With(s1, s1.current, s1.threads[s1.current].(pc := Normal)), t);
    case YieldStep => ScheduledProfile(s, a, s, t);
    case BlockStep => ScheduledProfile(s, a, FallAsleepElsewhere(s), t);
    case UnblockStep(u) =>
    case CreateStep(u, p) => ScheduledProfile(s, a, Born(s, u, p), t);
  }

  lemma ScheduledProfile(s: State, a: Step, mid: State, t: Tid)
    requires ListsOk(mid) && ProfileNext(s, a, mid, t)
    ensures ProfileNext(s, a, Schedule(mid), t) && ProfileNext(s, a, Yield(mid), t)
  {
    YieldSame(mid);
  }

  /** d is s, or s after a donation. */
  lemma DownProfile(s: State, d: State, l: LockId, t: Tid)
    requires Inv(s) && ListsOk(d) && l in s.locks && d.locks == s.locks && d.current == s.current
    requires d.threads.Keys == s.threads.Keys
    requires forall u <- s.threads :: ProfileOf(d, u) == ProfileOf(s, u)
    ensures ProfileNext(s, AcquireStep(l), Down(d, l), t) && ProfileNext(s, RetryStep(l), Down(d, l), t)
  {
    if s.locks[l].value == 0 { YieldSame(FallAsleep(d, l)); }
  }

  lemma AcquireProfile(s: State, l: LockId, t: Tid)
    requires Inv(s) && CanAcquire(s, l)
    ensures ProfileNext(s, AcquireStep(l), Acquire(s, l), t)
  {
    if s.locks[l].holder.Some? {
      DonateProfiles(s, l);
      DownProfile(s, Donate(s, l), l, t);
    } else {
      DownProfile(s, s, l, t);
    }
  }

  lemma DonateProfiles(s: State, l: LockId)
    requires CanAcquire(s, l) && s.locks[l].holder.Some? && s.locks[l].holder.value in s.threads
    ensures var d := Donate(s, l);
      && ListsOk(d) && d.locks == s.locks && d.current == s.current && d.threads.Keys == s.threads.Keys
      && forall t <- s.threads :: ProfileOf(d, t) == ProfileOf(s, t)
  {
    var h, d := s.locks[l].holder.value, Donate(s, l);
    AllChainsOk(s, Push(s, l, h));
    var s2 := Propagate(Push(s, l, h), PathFrom(s, h));
    forall t | t in s.threads
      ensures ProfileOf(d, t) == ProfileOf(s, t)
    {
      assert SameButPriorities(Push(s, l, h).threads[t], s2.threads[t]);
    }
  }

  lemma ReleaseProfile(s: State, l: LockId, t: Tid)
    requires Inv(s) && CanRelease(s, l)
    ensures ProfileNext(s, ReleaseStep(l), Release(s, l), t)
  {
    LetGoQueues(s, l);
    UpQueues(LetGo(s, l), l);
    assert ProfileNext(s, ReleaseStep(l), Up(LetGo(s, l), l), t);
    ScheduledProfile(s, ReleaseStep(l), Up(LetGo(s, l), l), t);
  }

  lemma SetProfile(s: State, p: int, t: Tid)
    requires Inv(s) && CanSetPriority(s)
    ensures ProfileNext(s, SetPriorityStep(p), SetPriority(s, p), t)
  {
    BasedIs(s, p);
    assert ProfileNext(s, SetPriorityStep(p), Based(s, p), t);
    ScheduledProfile(s, SetPriorityStep(p), Based(s, p), t);
  }

  // ----- thread_set_priority -----

  /** Up to its yield: only the caller's base changes, to the argument, and its priority with it. */
  lemma BasedIs(s: State, p: int)
    requires Inv(s) && CanSetPriority(s)
    ensures var c := s.current;
      && ChainOk(s, c)
      && Based(s, p) == With(s, c, s.threads[c].(
           initPri := p, priority := ChainMax(s.threads, s.threads[c].chain, p)))
  {
    var c := s.current;
    assert Donor(s, c) && Linked(s, c) && PriorityOk(s, c);
    assert IsBenePath(s, [c]);
    PathUnique(s, PathFrom(s, c), [c]);
    var s1 := With(s, c, s.threads[c].(initPri := p));
    AllChainsOk(s, s1);
    assert Propagate(s1, [c]) == UpdatePriority(s1, c);
    ChainMaxSame(s.threads, s1.threads, s.threads[c].chain, p);
  }

  /** `thread_set_priority (p)`: the caller's base is p and its priority the maximum of p and its donations, raised or
      lowered; no other thread's is touched; and the caller goes on running only if nobody ready is above it. */
  lemma SetPriorityIs(s: State, p: int)
    requires Inv(s) && CanSetPriority(s)
    ensures var s', c := SetPriority(s, p), s.current;
      && ChainOk(s, c) && c in s'.threads
      && s'.threads[c].initPri == p && s'.threads[c].priority == ChainMax(s.threads, s.threads[c].chain, p)
      && (forall t <- s.threads :: t in s'.threads && (t != c ==>
            s'.threads[t].initPri == s.threads[t].initPri && s'.threads[t].priority == s.threads[t].priority))
      && HighestRuns(s') && (c != s'.current && c != s.idle ==> c in s'.ready)
  {
    BasedIs(s, p);
    YieldSame(Based(s, p));
    YieldHighest(Based(s, p));
    if s.current != s.idle { YieldQueues(Based(s, p)); }
  }

  // ----- who runs -----

  /** Nobody who is ready has a higher priority than the running thread. */
  ghost predicate HighestRuns(s: State) {
    && s.current in s.threads
    && forall t <- s.ready :: t in s.threads && s.threads[t].priority <= s.threads[s.current].priority
  }

  lemma ScheduleHighest(s: State)
    requires ListsOk(s)
    ensures HighestRuns(Schedule(s))
  {
    if s.ready != [] {
      var keys := Keys(s, s.ready);
      var m := MaxIndex(keys, PriorityLess());
      LastOfTheLargest(keys);
      assert s.ready[m] in s.ready;
      forall t | t in RemoveAt(s.ready, m)
        ensures t in s.threads && s.threads[t].priority <= s.threads[s.ready[m]].priority
      {
        var k :| 0 <= k < |RemoveAt(s.ready, m)| && RemoveAt(s.ready, m)[k] == t;
        var j := if k < m then k else k + 1;
        assert s.ready[j] == t && keys[j] == s.threads[t].priority;
      }
    }
  }

  lemma YieldHighest(s: State)
    requires ListsOk(s)
    ensures HighestRuns(Yield(s))
  {
    ScheduleHighest(PutBack(s));
  }

  /** After a yield the caller runs again or is ready. */
  lemma YieldQueues(s: State)
    requires ListsOk(s) && s.current != s.idle
    ensures Yield(s).current == s.current || s.current in Yield(s).ready
  {
    var a := PutBack(s);
    var m := MaxIndex(Keys(a, a.ready), PriorityLess());
    assert a.ready[0] == s.current;
    if m != 0 { assert RemoveAt(a.ready, m)[0] == s.current; }
  }

  /** Steps that end in `schedule`: all but taking a lock at once and `thread_unblock`. */
  ghost predicate Schedules(s: State, a: Step) {
    match a
    case AcquireStep(l) => l in s.locks && s.locks[l].holder.Some?
    case RetryStep(l) => l in s.locks && s.locks[l].holder.Some?
    case UnblockStep(_) => false
    case _ => true
  }

  /** The highest priority runs after every step that schedules, and stays so through every other step but an
      unblocking of a thread above the running one. */
  lemma HighestNext(s: State, a: Step)
    requires Inv(s) && Enabled(s, a)
    ensures Schedules(s, a) ==> HighestRuns(Next(s, a))
    ensures !Schedules(s, a) && HighestRuns(s) ==>
      (HighestRuns(Next(s, a)) <==>
         a.UnblockStep? ==> s.threads[a.tid].priority <= s.threads[s.current].priority)
  {
    match a
    case AcquireStep(l) =>
      if s.locks[l].holder.Some? {
        DonateProfiles(s, l);
        ScheduleHighest(FallAsleep(Donate(s, l), l));
      }
    case RetryStep(l) => if s.locks[l].holder.Some? { ScheduleHighest(FallAsleep(s, l)); }
    case ReleaseStep(l) => YieldHighest(Up(LetGo(s, l), l));
    case FinishReleaseStep =>
      var s1 := UpdatePriority(s, s.current);
      YieldHighest(With(s1, s1.current, s1.threads[s1.current].(pc := Normal)));
    case SetPriorityStep(p) =>
      BasedIs(s, p);
      YieldHighest(Based(s, p));
    case YieldStep => YieldHighest(s);
    case BlockStep => ScheduleHighest(FallAsleepElsewhere(s));
    case UnblockStep(t) => if HighestRuns(s) { UnblockHighest(s, t); }
    case CreateStep(t, p) => YieldHighest(Born(s, t, p));
  }

  lemma UnblockHighest(s: State, t: Tid)
    requires Inv(s) && CanUnblock(s, t) && HighestRuns(s)
    ensures HighestRuns(Unblock(s, t)) <==> s.threads[t].priority <= s.threads[s.current].priority
  {
    var s' := Unblock(s, t);
    assert s'.ready[0] == t && t != s.current;
    if HighestRuns(s') { assert t in s'.ready; }
  }

  // ----- waiters and wakeups -----

  /** What a step does to the waiters of a lock: the running thread joins at the back if it has to sleep, and a
      release takes out one of the highest priority, the last of them. */
  ghost predicate WaitersNext(s: State, a: Step, s': State, l: LockId)
    requires l in s.locks && ListsOk(s)
  {
    var waiters := s.locks[l].waiters;
    && l in s'.locks
    && if a == ReleaseStep(l) && waiters != [] then
         exists m :: LastLargest(Keys(s, waiters), m) && s'.locks[l].waiters == RemoveAt(waiters, m)
       else if (a == AcquireStep(l) || a == RetryStep(l)) && s.locks[l].holder.Some? then
         s'.locks[l].waiters == waiters + [s.current]
       else s'.locks[l].waiters == waiters
  }

  lemma StepWaiters(s: State, a: Step, l: LockId)
    requires Inv(s) && Enabled(s, a) && l in s.locks
    ensures WaitersNext(s, a, Next(s, a), l)
  {
    match a
    case AcquireStep(k) => if s.locks[k].holder.Some? { AcquireWaiters(s, k, l); }
    case RetryStep(k) => if s.locks[k].holder.Some? { YieldSame(FallAsleep(s, k)); }
    case ReleaseStep(k) => ReleaseWaiters(s, k, l);
    case FinishReleaseStep =>
      var s1 := UpdatePriority(s, s.current);
      YieldSame(With(s1, s1.current, s1.threads[s1.current].(pc := Normal)));
    case SetPriorityStep(p) => BasedLocks(s, p);
    case YieldStep => YieldSame(s);
    case BlockStep => YieldSame(FallAsleepElsewhere(s));
    case UnblockStep(t) =>
    case CreateStep(t, p) => YieldSame(Born(s, t, p));
  }

  lemma ReleaseWaiters(s: State, k: LockId, l: LockId)
    requires Inv(s) && CanRelease(s, k) && l in s.locks
    ensures WaitersNext(s, ReleaseStep(k), Release(s, k), l)
  {
    LetGoSame(s, k);
    UpWaiters(LetGo(s, k), k, l);
    YieldLocks(Up(LetGo(s, k), k));
    SameKeys(s, LetGo(s, k), s.locks[l].waiters);
  }

  lemma LetGoSame(s: State, l: LockId)
    requires Inv(s) && CanRelease(s, l)
    ensures var s' := LetGo(s, l);
      && ListsOk(s') && s'.locks == s.locks[l := s.locks[l].(holder := None)] && s'.threads.Keys == s.threads.Keys
      && forall t <- s.threads :: s'.threads[t].priority == s.threads[t].priority
  {
    LetGoQueues(s, l);
  }

  lemma UpWaiters(s: State, k: LockId, l: LockId)
    requires ListsOk(s) && k in s.locks && l in s.locks
    ensures l in Up(s, k).locks
    ensures var waiters, waiters' := s.locks[l].waiters, Up(s, k).locks[l].waiters;
      if k == l && waiters != [] then exists m :: LastLargest(Keys(s, waiters), m) && waiters' == RemoveAt(waiters, m)
      else waiters' == waiters
  {
    var waiters := s.locks[k].waiters;
    if waiters != [] { LastOfTheLargest(Keys(s, waiters)); }
  }

  lemma AcquireWaiters(s: State, k: LockId, l: LockId)
    requires Inv(s) && CanAcquire(s, k) && l in s.locks && s.locks[k].holder.Some?
    ensures WaitersNext(s, AcquireStep(k), Acquire(s, k), l)
  {
    DonateProfiles(s, k);
    YieldSame(FallAsleep(Donate(s, k), k));
  }

  lemma BasedLocks(s: State, p: int)
    requires Inv(s) && CanSetPriority(s)
    ensures SetPriority(s, p).locks == s.locks
  {
    BasedIs(s, p);
    YieldSame(Based(s, p));
  }

  lemma SameKeys(s: State, s': State, list: seq<Tid>)
    requires forall t <- list :: t in s.threads && t in s'.threads && s'.threads[t].priority == s.threads[t].priority
    ensures Keys(s', list) == Keys(s, list)
  {
    forall i | 0 <= i < |list|
      ensures Keys(s', list)[i] == Keys(s, list)[i]
    {
      assert list[i] in list;
    }
  }

  /** If a lock is free and threads sleep on it, one that waits for it is awake, on its way to take it. */
  ghost predicate Promised(s: State) {
    forall l {:trigger s.locks[l].waiters} ::
      l in s.locks && s.locks[l].holder == None && s.locks[l].waiters != [] ==> OnItsWay(s, l)
  }

  ghost predicate OnItsWay(s: State, l: LockId)
    requires l in s.locks
  {
    exists t {:trigger WaitsFor(s, t, l)} :: WaitsFor(s, t, l) && t !in s.locks[l].waiters
  }

  lemma PromisedNext(s: State, a: Step)
    requires Inv(s) && Enabled(s, a) && Promised(s)
    ensures Promised(Next(s, a))
  {
    var s' := Next(s, a);
    forall l | l in s'.locks && s'.locks[l].holder == None && s'.locks[l].waiters != []
      ensures OnItsWay(s', l)
    {
      LocksStay(s, a);
      HolderNext(s, a, l);
      StepWaiters(s, a, l);
      if a == ReleaseStep(l) { WokenOnItsWay(s, a, l); } else { StillOnItsWay(s, a, l); }
    }
  }

  lemma WokenOnItsWay(s: State, a: Step, l: LockId)
    requires Inv(s) && Enabled(s, a) && a == ReleaseStep(l) && l in s.locks && l in Next(s, a).locks
    requires WaitersNext(s, a, Next(s, a), l) && Next(s, a).locks[l].waiters != []
    ensures OnItsWay(Next(s, a), l)
  {
    var s', waiters := Next(s, a), s.locks[l].waiters;
    var m :| LastLargest(Keys(s, waiters), m) && s'.locks[l].waiters == RemoveAt(waiters, m);
    RemoveDistinct(waiters, m);
    var w := waiters[m];
    assert w in waiters;
    StepProfile(s, a, w);
    assert WaitsFor(s', w, l);
  }

  lemma StillOnItsWay(s: State, a: Step, l: LockId)
    requires Inv(s) && Enabled(s, a) && Promised(s) && a != ReleaseStep(l) && l in s.locks && l in Next(s, a).locks
    requires WaitersNext(s, a, Next(s, a), l) && Next(s, a).locks[l].holder == None
    requires s.locks[l].holder == None && a != AcquireStep(l) && a != RetryStep(l)
    requires Next(s, a).locks[l].waiters != []
    ensures OnItsWay(Next(s, a), l)
  {
    assert s.locks[l].waiters != [] && OnItsWay(s, l);
    var t :| WaitsFor(s, t, l) && t !in s.locks[l].waiters;
    StepProfile(s, a, t);
    assert WaitsFor(Next(s, a), t, l);
  }

  /** No lock is ever left free with its waiters asleep and nobody woken. */
  lemma {:induction false} NeverForgotten(s: State, steps: seq<Step>, s': State)
    requires Inv(s) && Promised(s) && SafeRun(s, steps, s')
    ensures Inv(s') && Promised(s')
    decreases |steps|
  {
    if steps != [] {
      StepKeeps(s, steps[0]);
      PromisedNext(s, steps[0]);
      NeverForgotten(Next(s, steps[0]), steps[1..], s');
    }
  }

  lemma BootPromised(main: Tid, idle: Tid, locks: set<LockId>)
    requires main != idle
    ensures Promised(Boot(main, idle, locks))
  {
  }
}
