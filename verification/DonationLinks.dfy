/**
 Which waiters of a lock donate to its holder: all of them, until somebody takes the lock while another thread
 is still inside `lock_acquire` for it.
 */
module DonationLinks {
  import opened Lists
  import opened Threads
  import opened Donation
  import opened DonationSteps
  import opened DonationResults

  /** t is inside `lock_acquire` for l, asleep or woken. */
  ghost predicate WaitsFor(s: State, t: Tid, l: LockId) { t in s.threads && s.threads[t].pc == InDown(l) }

  ghost predicate LinkedToHolder(s: State, t: Tid, l: LockId) {
    l in s.locks && s.locks[l].holder.Some? ==>
      s.locks[l].holder.value in s.threads && t in s.threads[s.locks[l].holder.value].chain
  }

  /** Every thread that waits for a lock somebody holds is linked to the holder. */
  ghost predicate AllLinked(s: State) {
    forall t, l {:trigger WaitsFor(s, t, l)} :: WaitsFor(s, t, l) ==> LinkedToHolder(s, t, l)
  }

  /** A free lock is taken while another thread still waits for it. */
  ghost predicate PassesOver(s: State, a: Step) {
    && (a.AcquireStep? || a.RetryStep?) && a.lock in s.locks && s.locks[a.lock].holder == None
    && exists w {:trigger WaitsFor(s, w, a.lock)} :: w != s.current && WaitsFor(s, w, a.lock)
  }

  // ----- one step -----

  ghost predicate HoldersKnown(s: State) {
    forall l <- s.locks :: s.locks[l].holder.Some? ==> s.locks[l].holder.value in s.threads
  }

  /** The same holders, chains and waiting threads. */
  ghost predicate SameLinks(s: State, s': State) {
    && s'.locks.Keys == s.locks.Keys && (forall l <- s.locks :: s'.locks[l].holder == s.locks[l].holder)
    && (forall t <- s.threads :: t in s'.threads && s'.threads[t].chain == s.threads[t].chain)
    && (forall t, l {:trigger WaitsFor(s', t, l)} {:trigger WaitsFor(s, t, l)} ::
          WaitsFor(s', t, l) <==> WaitsFor(s, t, l))
  }

  lemma SameLinked(s: State, s': State)
    requires SameLinks(s, s') && HoldersKnown(s)
    ensures HoldersKnown(s') && (AllLinked(s') <==> AllLinked(s))
  {
    forall t, l
      ensures LinkedToHolder(s', t, l) <==> LinkedToHolder(s, t, l)
    {
    }
  }

  lemma YieldLinked(s: State)
    requires ListsOk(s) && HoldersKnown(s)
    ensures AllLinked(Schedule(s)) <==> AllLinked(s)
    ensures AllLinked(Yield(s)) <==> AllLinked(s)
  {
    ScheduleLinks(s);
    SameLinked(s, Schedule(s));
    PutBackLinks(s);
    SameLinked(s, PutBack(s));
    ScheduleLinks(PutBack(s));
    SameLinked(PutBack(s), Schedule(PutBack(s)));
  }

  lemma ScheduleLinks(s: State)
    requires ListsOk(s)
    ensures SameLinks(s, Schedule(s))
  {
    if s.ready != [] { assert s.ready[MaxIndex(Keys(s, s.ready), PriorityLess())] in s.ready; }
  }

  lemma PutBackLinks(s: State)
    requires ListsOk(s)
    ensures ListsOk(PutBack(s)) && SameLinks(s, PutBack(s))
  {
  }

  /** Going to sleep on a held lock; d is the state after the donation, if there was one. */
  lemma SleepLinked(s: State, l: LockId, d: State)
    requires AllLinked(s) && HoldersKnown(s) && ListsOk(d) && l in s.locks && s.locks[l].holder.Some?
    requires d.locks == s.locks && s.locks[l].value == 0 && d.current == s.current && d.threads.Keys == s.threads.Keys
    requires forall t <- s.threads :: d.threads[t].pc == s.threads[t].pc
    requires forall t <- s.threads :: forall e <- s.threads[t].chain :: e in d.threads[t].chain
    requires s.current in d.threads[s.locks[l].holder.value].chain
    ensures AllLinked(Down(d, l))
  {
    var s1 := FallAsleep(d, l);
    forall t, k | WaitsFor(s1, t, k)
      ensures LinkedToHolder(s1, t, k)
    {
      if t != s.current { assert WaitsFor(s, t, k); }
    }
    YieldLinked(s1);
  }

  lemma DonateLinked(s: State, l: LockId)
    requires Inv(s) && AllLinked(s) && CanAcquire(s, l) && s.locks[l].holder.Some?
    ensures ListsOk(Donate(s, l)) && AllLinked(Acquire(s, l))
  {
    DonateChains(s, l);
    SleepLinked(s, l, Donate(s, l));
  }

  /** The donation changes one chain only: the holder's. */
  lemma DonateChains(s: State, l: LockId)
    requires CanAcquire(s, l) && s.locks[l].holder.Some? && s.locks[l].holder.value in s.threads
    ensures var c, h, d := s.current, s.locks[l].holder.value, Donate(s, l);
      && ListsOk(d) && d.locks == s.locks && d.current == c && d.threads.Keys == s.threads.Keys
      && forall t <- s.threads ::
           && d.threads[t].pc == s.threads[t].pc
           && d.threads[t].chain == if t == h then [c] + s.threads[t].chain else s.threads[t].chain
  {
    var c, h, d := s.current, s.locks[l].holder.value, Donate(s, l);
    AllChainsOk(s, Push(s, l, h));
    var s2 := Propagate(Push(s, l, h), PathFrom(s, h));
    forall t | t in s.threads
      ensures d.threads[t].pc == s.threads[t].pc
      ensures d.threads[t].chain == if t == h then [c] + s.threads[t].chain else s.threads[t].chain
    {
      assert SameButPriorities(Push(s, l, h).threads[t], s2.threads[t]);
    }
  }

  /** A waiting thread that is linked anywhere is linked for the lock it waits for. */
  lemma LinkedFor(s: State, c: Tid, w: Tid, l: LockId)
    requires Donating(s) && c in s.threads && w in s.threads[c].chain && WaitsFor(s, w, l)
    ensures s.threads[w].beneElem.lock == l && l in s.locks && s.locks[l].holder == Some(c)
  {
    assert Linked(s, c) && Donor(s, w);
  }

  lemma TakeLinked(s: State, l: LockId)
    requires Inv(s) && AllLinked(s) && ListsOk(s) && l in s.locks && s.locks[l].holder == None
    ensures AllLinked(Down(s, l)) <==>
      !exists w {:trigger WaitsFor(s, w, l)} :: w != s.current && WaitsFor(s, w, l)
  {
    var s' := Down(s, l);
    forall w, k | WaitsFor(s', w, k)
      ensures w != s.current && WaitsFor(s, w, k) && (LinkedToHolder(s', w, k) <==> k != l)
    {
      assert WaitsFor(s, w, k) && LinkedToHolder(s, w, k);
      if k == l && w in s.threads[s.current].chain { LinkedFor(s, s.current, w, l); }
    }
    forall w | w != s.current && WaitsFor(s, w, l)
      ensures !AllLinked(s')
    {
      assert WaitsFor(s', w, l);
    }
  }

  lemma ReleaseLinked(s: State, l: LockId)
    requires Inv(s) && AllLinked(s) && CanRelease(s, l)
    ensures AllLinked(Release(s, l))
  {
    LetGoLinked(s, l);
    LetGoQueues(s, l);
    UpLinks(LetGo(s, l), l);
    SameLinked(LetGo(s, l), Up(LetGo(s, l), l));
    YieldLinked(Up(LetGo(s, l), l));
  }

  lemma UpLinks(s: State, l: LockId)
    requires Scheduling(s) && l in s.locks
    ensures ListsOk(s) && SameLinks(s, Up(s, l))
  {
    UpQueues(s, l);
  }

  lemma LetGoLinked(s: State, l: LockId)
    requires Inv(s) && AllLinked(s) && CanRelease(s, l)
    ensures AllLinked(LetGo(s, l)) && HoldersKnown(LetGo(s, l))
  {
    var c, s1 := s.current, LetGo(s, l);
    forall w, k | WaitsFor(s1, w, k)
      ensures LinkedToHolder(s1, w, k)
    {
      assert WaitsFor(s, w, k) && LinkedToHolder(s, w, k);
      if k != l && k in s.locks && s.locks[k].holder == Some(c) { LinkedFor(s, c, w, k); }
    }
  }

  lemma PriorityLinked(s: State, s': State)
    requires Inv(s) && ListsOk(s') && s'.locks == s.locks && s'.threads.Keys == s.threads.Keys && AllLinked(s)
    requires forall t <- s.threads ::
      s'.threads[t].chain == s.threads[t].chain
      && (s'.threads[t].pc == s.threads[t].pc || !(s.threads[t].pc.InDown? || s'.threads[t].pc.InDown?))
    ensures AllLinked(s') && AllLinked(Schedule(s')) && AllLinked(Yield(s'))
  {
    SameLinked(s, s');
    YieldLinked(s');
  }

  lemma CreateLinked(s: State, t: Tid, priority: int)
    requires Inv(s) && AllLinked(s) && ListsOk(s) && t !in s.threads
    ensures AllLinked(Create(s, t, priority))
  {
    SameLinked(s, Born(s, t, priority));
    YieldLinked(Born(s, t, priority));
  }

  lemma BasedLinks(s: State, p: int)
    requires CanSetPriority(s)
    ensures Based(s, p).locks == s.locks && Based(s, p).threads.Keys == s.threads.Keys
    ensures forall t <- s.threads ::
      Based(s, p).threads[t].chain == s.threads[t].chain && Based(s, p).threads[t].pc == s.threads[t].pc
  {
    var s1 := With(s, s.current, s.threads[s.current].(initPri := p));
    AllChainsOk(s, s1);
    forall t | t in s.threads
      ensures SameButPriorities(s1.threads[t], Based(s, p).threads[t])
    {
    }
  }

  /** A step leaves a waiter unlinked exactly if it takes a free lock while another thread waits for it. */
  lemma LinkedNextIff(s: State, a: Step)
    requires Inv(s) && Enabled(s, a) && AllLinked(s)
    ensures AllLinked(Next(s, a)) <==> !PassesOver(s, a)
  {
    assert HoldersKnown(s);
    match a
    case AcquireStep(l) => if s.locks[l].holder.Some? { DonateLinked(s, l); } else { TakeLinked(s, l); }
    case RetryStep(l) =>
      assert WaitsFor(s, s.current, l);
      if s.locks[l].holder.Some? { SleepLinked(s, l, s); } else { TakeLinked(s, l); }
    case ReleaseStep(l) => ReleaseLinked(s, l);
    case YieldStep => YieldLinked(s);
    case UnblockStep(t) => SameLinked(s, Unblock(s, t));
    case CreateStep(t, p) => CreateLinked(s, t, p);
    case _ => OwnStepLinked(s, a);
  }

  /** Steps that concern only the running thread, which waits for no lock before or after. */
  lemma OwnStepLinked(s: State, a: Step)
    requires Inv(s) && Enabled(s, a) && AllLinked(s) && (a.FinishReleaseStep? || a.SetPriorityStep? || a.BlockStep?)
    ensures AllLinked(Next(s, a))
  {
    match a
    case FinishReleaseStep =>
      var s1 := UpdatePriority(s, s.current);
      PriorityLinked(s, With(s1, s1.current, s1.threads[s1.current].(pc := Normal)));
    case SetPriorityStep(p) =>
      BasedLinks(s, p);
      PriorityLinked(s, Based(s, p));
    case BlockStep => PriorityLinked(s, FallAsleepElsewhere(s));
  }

  // ----- whole runs -----

  /** The holder of a lock runs at no less than every thread inside `lock_acquire` for it. */
  ghost predicate HoldersCover(s: State) {
    forall t, l {:trigger WaitsFor(s, t, l)} :: WaitsFor(s, t, l) && l in s.locks && s.locks[l].holder.Some? ==>
      && s.locks[l].holder.value in s.threads
      && s.threads[t].priority <= s.threads[s.locks[l].holder.value].priority
  }

  lemma LinkedCovers(s: State)
    requires Inv(s) && AllLinked(s)
    ensures HoldersCover(s)
  {
    forall t, l | WaitsFor(s, t, l) && l in s.locks && s.locks[l].holder.Some?
      ensures s.locks[l].holder.value in s.threads
      ensures s.threads[t].priority <= s.threads[s.locks[l].holder.value].priority
    {
      assert LinkedToHolder(s, t, l);
      AtLeastDonor(s, s.locks[l].holder.value, t);
    }
  }

  /** s' is reached from s by enabled, safe steps, none of which takes a lock that others wait for. */
  ghost predicate FairRun(s: State, steps: seq<Step>, s': State)
    decreases |steps|
  {
    if steps == [] then s == s'
    else
      && Enabled(s, steps[0]) && Safe(s, steps[0]) && !PassesOver(s, steps[0])
      && FairRun(Next(s, steps[0]), steps[1..], s')
  }

  /** No priority inversion throughout such a run from boot. */
  lemma NoInversion(main: Tid, idle: Tid, locks: set<LockId>, steps: seq<Step>, s': State)
    requires main != idle && FairRun(Boot(main, idle, locks), steps, s')
    ensures Inv(s') && AllLinked(s') && HoldersCover(s')
  {
    BootGood(main, idle, locks);
    RunLinked(Boot(main, idle, locks), steps, s');
    LinkedCovers(s');
  }

  lemma {:induction false} RunLinked(s: State, steps: seq<Step>, s': State)
    requires Inv(s) && AllLinked(s) && FairRun(s, steps, s')
    ensures Inv(s') && AllLinked(s')
    decreases |steps|
  {
    if steps != [] {
      StepKeeps(s, steps[0]);
      LinkedNextIff(s, steps[0]);
      RunLinked(Next(s, steps[0]), steps[1..], s');
    }
  }

  // ----- a run in which a lock passes over a waiter -----

  /** In the run to S12 thread 2 takes lock 0 while thread 3 still waits for it.  From S12 thread 2 lowers its own
      priority to 1: it holds the lock, thread 3 waits for it at 31, and nothing is donated. */
  lemma InversionAfterHandOver()
    ensures Inv(S12) && Enabled(S12, YieldStep) && Next(S12, YieldStep) == S11 && Inv(S11)
    ensures Enabled(S11, SetPriorityStep(1))
    ensures var s' := Next(S11, SetPriorityStep(1));
      && Inv(s') && 0 in s'.locks && s'.locks[0].holder == Some(2) && s'.locks[0].waiters == [3]
      && 2 in s'.threads && 3 in s'.threads && s'.threads[2].priority == 1 && s'.threads[3].priority == 31
      && !HoldersCover(s') && !AllLinked(s')
  {
    BackToEleven();
    AfterLowering();
    SetPriorityKeeps(S11, 1);
    Inverted(Next(S11, SetPriorityStep(1)), 3, 2, 0);
  }

  lemma AfterLowering()
    requires Inv(S11)
    ensures CanSetPriority(S11)
    ensures var s' := SetPriority(S11, 1);
      && 0 in s'.locks && s'.locks[0].holder == Some(2) && s'.locks[0].waiters == [3]
      && 2 in s'.threads && 3 in s'.threads && s'.threads[2].priority == 1 && s'.threads[3].priority == 31
      && WaitsFor(s', 3, 0)
  {
    Lowered();
    YieldPriorities(Based(S11, 1));
  }

  lemma Inverted(s: State, t: Tid, h: Tid, l: LockId)
    requires Inv(s) && WaitsFor(s, t, l) && l in s.locks && s.locks[l].holder == Some(h) && h in s.threads
    requires s.threads[h].priority < s.threads[t].priority
    ensures !HoldersCover(s) && !AllLinked(s)
  {
    if AllLinked(s) { LinkedCovers(s); }
  }

  lemma BackToEleven()
    ensures Inv(S12) && Enabled(S12, YieldStep) && Next(S12, YieldStep) == S11 && Inv(S11)
  {
    ReachedGood();
    YieldsToLast(S12);
    assert [1] + [2][..0] == [1];
    YieldKeeps(S12);
  }

  lemma YieldPriorities(s: State)
    requires ListsOk(s)
    ensures Yield(s).locks == s.locks && Yield(s).threads.Keys == s.threads.Keys
    ensures forall t <- s.threads ::
      Yield(s).threads[t].priority == s.threads[t].priority && Yield(s).threads[t].pc == s.threads[t].pc
  {
  }

  lemma Lowered()
    requires Inv(S11)
    ensures CanSetPriority(S11)
    ensures Based(S11, 1) == S11.(threads := S11.threads[2 := S11.threads[2].(initPri := 1, priority := 1)])
  {
    OnPathOfTwo();
    forall t | t in S11.threads ensures ChainOk(S11, t) { assert PriorityOk(S11, t); }
    var s1 := With(S11, 2, S11.threads[2].(initPri := 1));
    AllChainsOk(S11, s1);
    assert Propagate(s1, [2]) == UpdatePriority(s1, 2);
    assert Exact(s1, 2) == 1;
  }

  lemma OnPathOfTwo()
    requires Acyclic(S11)
    ensures HasPath(S11, 2) && PathFrom(S11, 2) == [2]
  {
    assert IsBenePath(S11, [2]);
    PathUnique(S11, PathFrom(S11, 2), [2]);
  }
}
