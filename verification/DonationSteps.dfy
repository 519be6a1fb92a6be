/**
 Every step keeps the invariant, with one exception that is described exactly: a donation closes a
 cycle of beneficiaries precisely when the donor is already on the holder's path.
 */
module DonationSteps {
  import opened Lists
  import opened Threads
  import opened Donation

  lemma FallAsleepQueues(s: State, l: LockId)
    requires Scheduling(s) && l in s.locks && s.current != s.idle
    ensures ListsOk(s) && Descheduled(FallAsleep(s, l))
  {
    PushDistinct(s.current, s.locks[l].waiters);
  }

  /** Waiting again after losing the race for the lock. */
  lemma RetrySleepKeeps(s: State, l: LockId)
    requires Inv(s) && CanRetry(s, l) && s.locks[l].value == 0
    ensures Inv(Down(s, l))
  {
    var s1 := FallAsleep(s, l);
    FallAsleepQueues(s, l);
    StatusIrrelevant(s, s1);
    ScheduleKeeps(s1);
  }

  /** Taking a free lock: the donation of the taker, if any, is already unlinked everywhere. */
  lemma TakeKeeps(s: State, l: LockId)
    requires Inv(s) && ListsOk(s) && l in s.locks && s.locks[l].value != 0 && s.current != s.idle
    requires s.threads[s.current].pc.Normal? || s.threads[s.current].pc == InDown(l)
    ensures Inv(Down(s, l))
    ensures Unlinked(s, s.current)
  {
    assert s.locks[l].holder == None;
    NotLinked(s, l);
    AcyclicCut(s, Down(s, l), s.current);
    TakeDonating(s, l);
    TakeLocking(s, l);
  }

  lemma TakeDonating(s: State, l: LockId)
    requires Donating(s) && ListsOk(s) && l in s.locks && s.locks[l].value != 0 && s.locks[l].holder == None
    requires !s.threads[s.current].pc.InRelease? && Unlinked(s, s.current)
    ensures Donating(Down(s, l))
  {
    var s' := Down(s, l);
    forall t | t in s.threads
      ensures Donor(s', t) && PriorityOk(s', t)
    {
      assert Donor(s, t) && PriorityOk(s, t);
      ExactSame(s, s', t);
    }
    forall t | t in s.threads
      ensures Linked(s', t)
    {
      assert Linked(s, t);
    }
  }

  lemma TakeLocking(s: State, l: LockId)
    requires Scheduling(s) && Locking(s) && ListsOk(s) && l in s.locks && s.locks[l].value != 0
    ensures Scheduling(Down(s, l)) && Locking(Down(s, l))
  {
  }

  lemma NotLinked(s: State, l: LockId)
    requires Inv(s) && l in s.locks && s.locks[l].holder == None
    requires s.threads[s.current].pc.Normal? || s.threads[s.current].pc == InDown(l)
    ensures Unlinked(s, s.current)
  {
    forall t, d | t in s.threads && d in s.threads[t].chain
      ensures d != s.current
    {
      assert Linked(s, t) && Donor(s, s.current);
    }
  }

  /** No chain holds the priority element of c. */
  ghost predicate Unlinked(s: State, c: Tid) {
    forall t, d {:trigger d in s.threads[t].chain} :: t in s.threads && d in s.threads[t].chain ==> d != c
  }

  // ----- donation -----

  /** The sleeping donor's state: `Donate` followed by the block inside `sema_down`. */
  lemma AcquireSleeps(s: State, l: LockId)
    requires Inv(s) && CanAcquire(s, l) && s.locks[l].holder.Some?
    requires s.current !in PathFrom(s, s.locks[l].holder.value)
    ensures Inv(Acquire(s, l))
  {
    var h := s.locks[l].holder.value;
    DonatePhase(s, l, h);
    var s3 := Donate(s, l);
    var s4 := FallAsleep(s3, l);
    FallAsleepQueues(s3, l);
    SleepPhase(s, l, h, s4);
    ScheduleKeeps(s4);
  }

  lemma DonatePhase(s: State, l: LockId, h: Tid)
    requires Inv(s) && CanAcquire(s, l) && s.locks[l].holder == Some(h)
    requires s.current !in PathFrom(s, h)
    ensures Pending(Push(s, l, h), PathFrom(s, h))
    ensures Settled(Push(s, l, h), Propagate(Push(s, l, h), PathFrom(s, h)), PathFrom(s, h))
    ensures var s2 := Propagate(Push(s, l, h), PathFrom(s, h));
      s.current in s2.threads && Donate(s, l) == With(s2, s.current, s2.threads[s.current].(bene := Some(h)))
    ensures Scheduling(Donate(s, l)) && Donate(s, l).locks == s.locks
  {
    PushPending(s, l, h, PathFrom(s, h));
    PropagateSettles(Push(s, l, h), PathFrom(s, h));
    DonatedQueues(s, l, h, Propagate(Push(s, l, h), PathFrom(s, h)));
  }

  lemma SleepPhase(s: State, l: LockId, h: Tid, s4: State)
    requires Inv(s) && CanAcquire(s, l) && s.locks[l].holder == Some(h)
    requires s.current !in PathFrom(s, h) && ListsOk(Donate(s, l))
    requires s4 == FallAsleep(Donate(s, l), l)
    ensures Locking(s4) && Donating(s4) && Acyclic(s4)
  {
    DonatePhase(s, l, h);
    var s2 := Propagate(Push(s, l, h), PathFrom(s, h));
    SleepsDonated(s, l, h, s2, s4);
    DonatedLocks(s, l, h, s2, s4);
    DonatedChains(s, l, h, PathFrom(s, h), s2, s4);
    NewEdge(s, l, h, s4);
  }

  lemma SleepsDonated(s: State, l: LockId, h: Tid, s2: State, s4: State)
    requires Scheduling(s) && l in s.locks && h in s.threads && h != s.current
    requires OnlyPriorities(Push(s, l, h), s2)
    requires var s3 := With(s2, s.current, s2.threads[s.current].(bene := Some(h)));
      ListsOk(s3) && s4 == FallAsleep(s3, l)
    ensures Donated(s, l, h, s2, s4)
  {
  }

  /** Only the donor's `bene` has changed when it falls asleep. */
  lemma NewEdge(s: State, l: LockId, h: Tid, s4: State)
    requires Inv(s) && CanAcquire(s, l) && s.locks[l].holder == Some(h)
    requires ListsOk(Donate(s, l)) && s4 == FallAsleep(Donate(s, l), l)
    ensures Acyclic(s4) <==> s.current !in PathFrom(s, h)
  {
    assert Donor(s, s.current);
    forall t | t in s.threads
      ensures s4.threads[t].bene == if t == s.current then Some(h) else s.threads[t].bene
    {
      DonateBene(s, l, h, t);
    }
    AcyclicExtend(s, s4, s.current, h);
  }

  lemma DonateBene(s: State, l: LockId, h: Tid, t: Tid)
    requires CanAcquire(s, l) && s.locks[l].holder == Some(h) && t in s.threads && h in s.threads
    ensures t in Donate(s, l).threads
    ensures Donate(s, l).threads[t].bene == if t == s.current then Some(h) else s.threads[t].bene
  {
    var s1 := Push(s, l, h);
    AllChainsOk(s, s1);
    assert SameButPriorities(s1.threads[t], Propagate(s1, PathFrom(s, h)).threads[t]);
  }

  lemma PushPending(s: State, l: LockId, h: Tid, path: seq<Tid>)
    requires Inv(s) && CanAcquire(s, l) && s.locks[l].holder == Some(h)
    requires IsBenePath(s, path) && path[0] == h && s.current !in path
    ensures Pending(Push(s, l, h), path)
  {
    var c, s1 := s.current, Push(s, l, h);
    PathTransfer(s, s1, path);
    assert Donor(s, c);
    forall u | u in s1.threads
      ensures ChainOk(s1, u) && (u != h ==> PriorityOk(s1, u))
    {
      assert PriorityOk(s, u) && Linked(s, u) && Donor(s, c);
      if u != h {
        assert c !in s.threads[u].chain;
        ExactSame(s, s1, u);
      }
    }
    forall u, d | u in s1.threads && d in s1.threads[u].chain
      ensures d in s1.threads && (d in path ==> s1.threads[d].bene == Some(u))
    {
      assert Linked(s, u);
      assert d == c || d in s.threads[u].chain;
    }
  }

  lemma DonatedQueues(s: State, l: LockId, h: Tid, s2: State)
    requires Scheduling(s) && h in s.threads && OnlyPriorities(Push(s, l, h), s2)
    ensures Scheduling(With(s2, s.current, s2.threads[s.current].(bene := Some(h))))
  {
    var s3 := With(s2, s.current, s2.threads[s.current].(bene := Some(h)));
    forall t <- s.threads
      ensures s3.threads[t].status == s.threads[t].status && s3.threads[t].pc == s.threads[t].pc
    {
      assert SameButPriorities(Push(s, l, h).threads[t], s2.threads[t]);
    }
  }

  ghost predicate Donated(s: State, l: LockId, h: Tid, s2: State, s4: State) {
    && Scheduling(s) && l in s.locks && h in s.threads && h != s.current
    && OnlyPriorities(Push(s, l, h), s2)
    && s4.threads == s2.threads[s.current :=
         s2.threads[s.current].(bene := Some(h), status := BLOCKED, pc := InDown(l))]
    && s4.locks.Keys == s.locks.Keys
    && forall k {:trigger s4.locks[k]} :: k in s.locks ==>
         s4.locks[k].holder == s.locks[k].holder && s4.locks[k].value == s.locks[k].value
  }

  lemma DonatedLocks(s: State, l: LockId, h: Tid, s2: State, s4: State)
    requires Donated(s, l, h, s2, s4) && Locking(s) && s.locks[l].holder == Some(h)
    ensures Locking(s4)
  {
    forall t <- s4.threads
      ensures t != s.current ==> s4.threads[t].pc == s.threads[t].pc
    {
      assert SameButPriorities(Push(s, l, h).threads[t], s2.threads[t]);
    }
  }

  lemma DonatedChains(s: State, l: LockId, h: Tid, path: seq<Tid>, s2: State, s4: State)
    requires Inv(s) && CanAcquire(s, l) && s.locks[l].holder == Some(h)
    requires Donated(s, l, h, s2, s4)
    requires s.current !in path && Settled(Push(s, l, h), s2, path)
    ensures Donating(s4)
    ensures forall t {:trigger s4.threads[t].bene} :: t in s.threads ==>
      s4.threads[t].bene == if t == s.current then Some(h) else s.threads[t].bene
  {
    forall t | t in s.threads
      ensures DonatedTo(s, h, s4, t)
    {
      DonatedOne(s, l, h, path, s2, s4, t);
    }
    AllDonated(s, h, s4);
  }

  lemma AllDonated(s: State, h: Tid, s4: State)
    requires s4.threads.Keys == s.threads.Keys
    requires forall t {:trigger DonatedTo(s, h, s4, t)} :: t in s.threads ==> DonatedTo(s, h, s4, t)
    ensures Donating(s4)
    ensures forall t {:trigger s4.threads[t].bene} :: t in s.threads ==>
      s4.threads[t].bene == if t == s.current then Some(h) else s.threads[t].bene
  {
    forall t | t in s.threads
      ensures Donor(s4, t) && Linked(s4, t) && PriorityOk(s4, t)
    {
      assert DonatedTo(s, h, s4, t);
    }
    assert forall t :: t in s.threads ==> DonatedTo(s, h, s4, t);
  }

  ghost predicate DonatedTo(s: State, h: Tid, s4: State, t: Tid) {
    && t in s.threads && t in s4.threads && Donor(s4, t) && Linked(s4, t) && PriorityOk(s4, t)
    && s4.threads[t].bene == if t == s.current then Some(h) else s.threads[t].bene
  }

  lemma DonatedOne(s: State, l: LockId, h: Tid, path: seq<Tid>, s2: State, s4: State, t: Tid)
    requires Inv(s) && CanAcquire(s, l) && s.locks[l].holder == Some(h)
    requires Donated(s, l, h, s2, s4) && t in s.threads
    requires s.current !in path && Settled(Push(s, l, h), s2, path)
    ensures DonatedTo(s, h, s4, t)
  {
    DonatedDonor(s, l, h, path, s2, s4, t);
    DonatedLinked(s, l, h, s2, s4, t);
    DonatedPriority(s, l, h, path, s2, s4, t);
  }

  lemma DonatedPriority(s: State, l: LockId, h: Tid, path: seq<Tid>, s2: State, s4: State, t: Tid)
    requires Inv(s) && CanAcquire(s, l) && s.locks[l].holder == Some(h)
    requires Donated(s, l, h, s2, s4) && t in s.threads
    requires s.current !in path && Settled(Push(s, l, h), s2, path)
    ensures t in s4.threads && PriorityOk(s4, t)
  {
    assert PriorityOk(s2, t) && SameButPriorities(Push(s, l, h).threads[t], s2.threads[t]);
    ExactSame(s2, s4, t);
  }

  lemma DonatedDonor(s: State, l: LockId, h: Tid, path: seq<Tid>, s2: State, s4: State, t: Tid)
    requires Donating(s) && t in s.threads && Donated(s, l, h, s2, s4)
    requires s.current !in path && Settled(Push(s, l, h), s2, path)
    ensures Donor(s4, t)
    ensures s4.threads[t].bene == if t == s.current then Some(h) else s.threads[t].bene
  {
    assert SameButPriorities(Push(s, l, h).threads[t], s2.threads[t]) && Donor(s, t);
  }

  lemma DonatedLinked(s: State, l: LockId, h: Tid, s2: State, s4: State, t: Tid)
    requires Donating(s) && t in s.threads && Donated(s, l, h, s2, s4)
    requires s.threads[s.current].pc.Normal? && s.locks[l].holder == Some(h)
    ensures Linked(s4, t)
  {
    var c, s1 := s.current, Push(s, l, h);
    assert SameButPriorities(s1.threads[t], s2.threads[t]) && Linked(s, t) && Donor(s, c);
    forall d | d in s4.threads[t].chain
      ensures d in s4.threads && s4.threads[d].bene == Some(t)
      ensures s4.threads[d].beneElem.lock in s4.locks
      ensures s4.locks[s4.threads[d].beneElem.lock].holder == Some(t)
    {
      assert d == c || d in s.threads[t].chain;
      assert SameButPriorities(s1.threads[d], s2.threads[d]);
    }
    if t == h {
      PushDistinct(c, s.threads[h].chain);
    }
  }

  /** `lock_acquire` on a held lock keeps the whole invariant exactly when the caller is not already
      on the holder's path of beneficiaries; otherwise the path becomes a cycle. */
  lemma AcquireKeepsIff(s: State, l: LockId)
    requires Inv(s) && CanAcquire(s, l)
    ensures Inv(Acquire(s, l)) <==>
      (s.locks[l].holder.Some? ==> s.current !in PathFrom(s, s.locks[l].holder.value))
    ensures Acyclic(Acquire(s, l)) <==>
      (s.locks[l].holder.Some? ==> s.current !in PathFrom(s, s.locks[l].holder.value))
  {
    if s.locks[l].holder == None {
      TakeKeeps(s, l);
    } else if s.current !in PathFrom(s, s.locks[l].holder.value) {
      AcquireSleeps(s, l);
    } else {
      var h := s.locks[l].holder.value;
      NewEdge(s, l, h, FallAsleep(Donate(s, l), l));
      SleepEnds(Donate(s, l), l);
    }
  }

  lemma SleepEnds(s: State, l: LockId)
    requires ListsOk(s) && l in s.locks && s.locks[l].value == 0
    ensures Acyclic(Down(s, l)) <==> Acyclic(FallAsleep(s, l))
  {
    var s1, s2 := FallAsleep(s, l), Down(s, l);
    if Acyclic(s1) { AcyclicTransfer(s1, s2); }
    if Acyclic(s2) { AcyclicTransfer(s2, s1); }
  }

  // ----- release -----

  lemma {:induction false} StillHeldDistinct(s: State, t: Tid, chain: seq<Tid>)
    requires LocksKnown(s, chain) && Distinct(chain)
    ensures Distinct(StillHeld(s, t, chain))
  {
    if chain != [] {
      StillHeldDistinct(s, t, chain[1..]);
    }
  }

  lemma {:induction false} ChainMaxShrinks(ts: map<Tid, Thread>, big: seq<Tid>, small: seq<Tid>, base: int)
    requires (forall d <- big :: d in ts) && (forall d <- small :: d in big)
    ensures ChainMax(ts, small, base) <= ChainMax(ts, big, base)
  {
    if small != [] {
      assert forall d <- small[1..] :: d in small;
      assert small[0] in big;
      ChainMaxShrinks(ts, big, small[1..], base);
    }
  }

  lemma LetGoChain(s: State, l: LockId)
    requires Inv(s) && CanRelease(s, l)
    ensures ChainOk(LetGo(s, l), s.current)
    ensures Exact(LetGo(s, l), s.current) <= s.threads[s.current].priority
    ensures Distinct(LetGo(s, l).threads[s.current].chain)
  {
    var c, s1 := s.current, WithLock(s, l, s.locks[l].(holder := None));
    assert Linked(s, c) && PriorityOk(s, c);
    var chain := s.threads[c].chain;
    StillHeldDistinct(s1, c, chain);
    ChainMaxShrinks(s.threads, chain, StillHeld(s1, c, chain), s.threads[c].initPri);
    ChainMaxSame(s.threads, LetGo(s, l).threads, StillHeld(s1, c, chain), s.threads[c].initPri);
  }

  lemma LetGoDonating(s: State, l: LockId)
    requires Inv(s) && CanRelease(s, l)
    ensures Donating(LetGo(s, l))
  {
    var s' := LetGo(s, l);
    LetGoChain(s, l);
    assert Donor(s, s.current);
    forall t | t in s.threads
      ensures Donor(s', t) && PriorityOk(s', t)
    {
      assert Donor(s, t) && PriorityOk(s, t);
      if t != s.current { ExactSame(s, s', t); }
    }
    forall t | t in s.threads
      ensures Linked(s', t)
    {
      assert Linked(s, t);
      forall d | d in s'.threads[t].chain
        ensures d in s'.threads && s'.threads[d].bene == Some(t)
        ensures s'.threads[d].beneElem.lock in s'.locks
        ensures s'.locks[s'.threads[d].beneElem.lock].holder == Some(t)
      {
        assert d in s.threads[t].chain;
      }
    }
  }

  lemma LetGoQueues(s: State, l: LockId)
    requires Scheduling(s) && Locking(s) && CanRelease(s, l)
    ensures Scheduling(LetGo(s, l))
    ensures LockingBut(LetGo(s, l), l)
  {
  }

  /** Locking, except that l is between `holder = NULL` and `value++`. */
  ghost predicate LockingBut(s: State, l: LockId) {
    l in s.locks && Locking(WithLock(s, l, s.locks[l].(value := s.locks[l].value + 1)))
  }

  lemma UpKeeps(s: State, l: LockId)
    requires Scheduling(s) && LockingBut(s, l) && Donating(s) && Acyclic(s)
    ensures ListsOk(s) && Inv(Up(s, l))
  {
    UpQueues(s, l);
    ChainsIrrelevant(s, Up(s, l));
    UpLocking(s, l);
  }

  lemma UpQueues(s: State, l: LockId)
    requires Scheduling(s) && l in s.locks
    ensures ListsOk(s) && Scheduling(Up(s, l)) && SameButStatus(s, Up(s, l))
  {
    var waiters := s.locks[l].waiters;
    if waiters != [] {
      var m := MaxIndex(Keys(s, waiters), PriorityLess());
      assert waiters[m] in waiters;
      RemoveDistinct(waiters, m);
      PushDistinct(waiters[m], s.ready);
    }
  }

  lemma UpLocking(s: State, l: LockId)
    requires ListsOk(s) && LockingBut(s, l) && SameButStatus(s, Up(s, l))
    ensures Locking(Up(s, l))
  {
    var s1 := WithLock(s, l, s.locks[l].(value := s.locks[l].value + 1));
    var s' := Up(s, l);
    forall k | k in s'.locks
      ensures s'.locks[k].holder == s1.locks[k].holder && s'.locks[k].value == s1.locks[k].value
    {
    }
  }

  /** The state when `lock_release` yields: lock free, its donations gone, one waiter made ready. */
  lemma ReleaseKeeps(s: State, l: LockId)
    requires Inv(s) && CanRelease(s, l)
    ensures Inv(Release(s, l))
  {
    LetGoDonating(s, l);
    LetGoQueues(s, l);
    AcyclicTransfer(s, LetGo(s, l));
    UpKeeps(LetGo(s, l), l);
    YieldKeeps(Up(LetGo(s, l), l));
  }

  // ----- the remaining steps -----

  /** A thread that is settled back to its exact priority; it donates to nobody. */
  lemma Resettled(s: State, s': State)
    requires Inv(s) && s.threads[s.current].bene == None && ChainOk(s, s.current)
    requires s.current in s'.threads
    requires s'.threads == s.threads[s.current :=
      s.threads[s.current].(
        initPri := s'.threads[s.current].initPri, priority := s'.threads[s.current].priority, pc := Normal)]
    requires s' == s.(threads := s'.threads)
    requires s.threads[s.current].pc.Normal? || s.threads[s.current].pc.InRelease?
    requires ChainOk(s', s.current) && s'.threads[s.current].priority == Exact(s', s.current)
    ensures Inv(s')
  {
    AcyclicTransfer(s, s');
    ResettledChains(s, s');
  }

  lemma ResettledChains(s: State, s': State)
    requires Donating(s) && s.current in s.threads && s.threads[s.current].bene == None
    requires s'.locks == s.locks && s'.threads.Keys == s.threads.Keys
    requires forall t {:trigger s'.threads[t]} :: t in s.threads && t != s.current ==> s'.threads[t] == s.threads[t]
    requires s'.threads[s.current].bene == None && s'.threads[s.current].chain == s.threads[s.current].chain
    requires ChainOk(s', s.current) && s'.threads[s.current].priority == Exact(s', s.current)
    requires s'.threads[s.current].beneElem == s.threads[s.current].beneElem
    ensures Donating(s')
  {
    forall t | t in s.threads
      ensures Donor(s', t) && Linked(s', t) && PriorityOk(s', t)
    {
      assert Donor(s, t) && Linked(s, t) && PriorityOk(s, t);
      if t != s.current { ExactSame(s, s', t); }
    }
  }

  /** Threads outside `lock_acquire` and `lock_release` may change their run state and place freely. */
  lemma PlaceIrrelevant(s: State, s': State, c: Tid)
    requires Donating(s) && Acyclic(s) && c in s.threads
    requires s'.locks == s.locks && s'.threads.Keys == s.threads.Keys
    requires s'.threads == s.threads[c := s.threads[c].(status := s'.threads[c].status, pc := s'.threads[c].pc)]
    requires !s.threads[c].pc.InDown? && !s.threads[c].pc.InRelease?
    ensures Donating(s') && Acyclic(s')
  {
    AcyclicTransfer(s, s');
    assert Donor(s, c);
    forall t | t in s.threads
      ensures Donor(s', t) && Linked(s', t) && PriorityOk(s', t)
    {
      assert Donor(s, t) && Linked(s, t) && PriorityOk(s, t);
      ExactSame(s, s', t);
    }
  }

  lemma FinishReleaseKeeps(s: State)
    requires Inv(s) && CanFinish(s)
    ensures Inv(FinishRelease(s))
  {
    var c := s.current;
    assert Donor(s, c);
    var s1 := UpdatePriority(s, c);
    var s2 := With(s1, c, s1.threads[c].(pc := Normal));
    ExactSame(s, s2, c);
    Resettled(s, s2);
    YieldKeeps(s2);
  }

  lemma SetPriorityKeeps(s: State, p: int)
    requires Inv(s) && CanSetPriority(s)
    ensures Inv(SetPriority(s, p))
  {
    var c := s.current;
    assert Donor(s, c) && ChainOk(s, c) && Linked(s, c);
    var path := PathFrom(s, c);
    assert |path| == 1 && path == [c];
    var s1 := With(s, c, s.threads[c].(initPri := p));
    AllChainsOk(s, s1);
    assert Propagate(s1, path) == UpdatePriority(s1, c);
    ExactSame(s1, UpdatePriority(s1, c), c);
    Resettled(s, UpdatePriority(s1, c));
    YieldKeeps(UpdatePriority(s1, c));
  }

  lemma BlockKeeps(s: State)
    requires Inv(s) && s.threads[s.current].pc.Normal?
    ensures ListsOk(s) && Inv(Block(s))
  {
    var s1 := FallAsleepElsewhere(s);
    PlaceIrrelevant(s, s1, s.current);
    SleepElsewhereQueues(s);
    ScheduleKeeps(s1);
  }

  lemma SleepElsewhereQueues(s: State)
    requires Scheduling(s) && Locking(s) && s.threads[s.current].pc.Normal?
    ensures Descheduled(FallAsleepElsewhere(s)) && Locking(FallAsleepElsewhere(s))
  {
  }

  lemma UnblockKeeps(s: State, t: Tid)
    requires Inv(s) && CanUnblock(s, t)
    ensures Inv(Unblock(s, t))
  {
    PlaceIrrelevant(s, Unblock(s, t), t);
    UnblockQueues(s, t);
  }

  lemma UnblockQueues(s: State, t: Tid)
    requires Scheduling(s) && Locking(s) && CanUnblock(s, t)
    ensures Scheduling(Unblock(s, t)) && Locking(Unblock(s, t))
  {
    PushDistinct(t, s.ready);
  }

  lemma CreateKeeps(s: State, t: Tid, priority: int)
    requires Inv(s) && t !in s.threads && s.current != s.idle
    ensures ListsOk(s) && Inv(Create(s, t, priority))
  {
    var s1 := Born(s, t, priority);
    BornChains(s, t, priority);
    BornQueues(s, t, priority);
    YieldKeeps(s1);
  }

  lemma BornQueues(s: State, t: Tid, priority: int)
    requires Scheduling(s) && Locking(s) && t !in s.threads
    ensures Scheduling(Born(s, t, priority)) && Locking(Born(s, t, priority))
  {
    PushDistinct(t, s.ready);
  }

  lemma BornChains(s: State, t: Tid, priority: int)
    requires Donating(s) && Acyclic(s) && t !in s.threads
    ensures Donating(Born(s, t, priority)) && Acyclic(Born(s, t, priority))
  {
    var s1 := Born(s, t, priority);
    forall u | u in s1.threads
      ensures HasPath(s1, u)
    {
      if u == t {
        assert IsBenePath(s1, [t]);
      } else {
        PathTransfer(s, s1, PathFrom(s, u));
      }
    }
    forall u | u in s1.threads
      ensures Donor(s1, u) && Linked(s1, u) && PriorityOk(s1, u)
    {
      if u != t {
        assert Donor(s, u) && Linked(s, u) && PriorityOk(s, u);
        ExactSame(s, s1, u);
      }
    }
  }

  // ----- every step, every run -----

  /** A donation is safe when the donor is not on the path that starts at the lock's holder. */
  ghost predicate Safe(s: State, a: Step) {
    a.AcquireStep? && CanAcquire(s, a.lock) && s.locks[a.lock].holder.Some? ==>
      s.current !in PathFrom(s, s.locks[a.lock].holder.value)
  }

  lemma StepKeeps(s: State, a: Step)
    requires Inv(s) && Enabled(s, a)
    ensures Inv(Next(s, a)) <==> Safe(s, a)
  {
    match a
    case AcquireStep(l) => AcquireKeepsIff(s, l);
    case RetryStep(l) =>
      if s.locks[l].value == 0 { RetrySleepKeeps(s, l); } else { TakeKeeps(s, l); }
    case ReleaseStep(l) => ReleaseKeeps(s, l);
    case FinishReleaseStep => FinishReleaseKeeps(s);
    case SetPriorityStep(p) => SetPriorityKeeps(s, p);
    case YieldStep => YieldKeeps(s);
    case BlockStep => BlockKeeps(s);
    case UnblockStep(t) => UnblockKeeps(s, t);
    case CreateStep(t, p) => CreateKeeps(s, t, p);
  }

  /** s' is reached from s by enabled steps, all of them safe. */
  ghost predicate SafeRun(s: State, steps: seq<Step>, s': State)
    decreases |steps|
  {
    if steps == [] then s == s'
    else Enabled(s, steps[0]) && Safe(s, steps[0]) && SafeRun(Next(s, steps[0]), steps[1..], s')
  }

  /** A run from a good state stays good as long as every donation in it is safe. */
  lemma {:induction false} RunKeeps(s: State, steps: seq<Step>, s': State)
    requires Inv(s) && SafeRun(s, steps, s')
    ensures Inv(s')
    decreases |steps|
  {
    if steps != [] {
      StepKeeps(s, steps[0]);
      RunKeeps(Next(s, steps[0]), steps[1..], s');
    }
  }

  /** The kernel after `thread_init`: the initial thread runs, the idle thread is blocked, all locks free. */
  function Boot(main: Tid, idle: Tid, locks: set<LockId>): State
    requires main != idle
  {
    State(map[main := Thread(RUNNING, 31, None, PriorityElem(0, 0), 31, [], Normal),
              idle := Thread(BLOCKED, 0, None, PriorityElem(0, 0), 0, [], Normal)],
          map l <- locks :: Lock(None, 1, []), [], main, idle)
  }

  lemma BootGood(main: Tid, idle: Tid, locks: set<LockId>)
    requires main != idle
    ensures Inv(Boot(main, idle, locks))
  {
    var s := Boot(main, idle, locks);
    BootQueues(main, idle, locks);
    assert IsBenePath(s, [main]) && IsBenePath(s, [idle]);
    forall t | t in s.threads
      ensures Donor(s, t) && Linked(s, t) && PriorityOk(s, t) && HasPath(s, t)
    {
    }
  }

  lemma BootQueues(main: Tid, idle: Tid, locks: set<LockId>)
    requires main != idle
    ensures Scheduling(Boot(main, idle, locks)) && Locking(Boot(main, idle, locks))
  {
  }
}
