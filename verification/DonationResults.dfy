/**
 What the invariant means: effective priorities, lock ownership, and the life of a priority element.
 The last part is a run that ends in a cycle of beneficiaries although nobody is deadlocked.
 */
module DonationResults {
  import opened Lists
  import opened Threads
  import opened Donation
  import opened DonationSteps

  // ----- effective priority -----

  /** p[0] donates to p[1], p[1] to p[2], and so on, each with an element that is really linked. */
  ghost predicate DonorPath(s: State, p: seq<Tid>) {
    && |p| > 0
    && p[0] in s.threads
    && (|p| > 1 ==> p[1] in s.threads && p[0] in s.threads[p[1]].chain && DonorPath(s, p[1..]))
  }

  /** A thread runs at no less than any thread that waits for it, however indirectly. */
  lemma {:induction false} AtLeastEveryDonor(s: State, p: seq<Tid>)
    requires Inv(s) && DonorPath(s, p)
    ensures var t := p[|p| - 1];
      && t in s.threads
      && s.threads[p[0]].priority <= s.threads[t].priority && s.threads[p[0]].initPri <= s.threads[t].priority
    decreases |p|
  {
    assert PriorityOk(s, p[0]);
    if |p| > 1 {
      AtLeastEveryDonor(s, p[1..]);
      assert Linked(s, p[1]) && Donor(s, p[0]) && PriorityOk(s, p[1]);
    }
  }

  /** Outside `lock_release` a thread's priority is the base priority of one of its transitive donors
      or its own: with AtLeastEveryDonor, it is the maximum of all of them. */
  lemma AttainedByADonor(s: State, t: Tid) returns (p: seq<Tid>)
    requires Inv(s) && t in s.threads && !s.threads[t].pc.InRelease?
    ensures DonorPath(s, p) && p[|p| - 1] == t
    ensures s.threads[p[0]].initPri == s.threads[t].priority
  {
    assert HasPath(s, t);
    p := AttainedAlong(s, t, PathFrom(s, t));
  }

  lemma {:induction false} AttainedAlong(s: State, t: Tid, up: seq<Tid>) returns (p: seq<Tid>)
    requires Inv(s) && t in s.threads && !s.threads[t].pc.InRelease?
    requires IsBenePath(s, up) && up[0] == t
    ensures DonorPath(s, p) && p[|p| - 1] == t
    ensures s.threads[p[0]].initPri == s.threads[t].priority
    decreases |s.threads| - |up|
  {
    assert PriorityOk(s, t) && Linked(s, t);
    if s.threads[t].priority == s.threads[t].initPri {
      p := [t];
    } else {
      var d := ChainMaxAttained(s.threads, s.threads[t].chain, s.threads[t].initPri);
      assert Donor(s, d);
      var up' := [d] + up;
      assert up'[1..] == up;
      PathFits(s, up');
      var q := AttainedAlong(s, d, up');
      p := q + [t];
      ExtendDonorPath(s, q, t);
    }
  }

  lemma {:induction false} ChainMaxAttained(ts: map<Tid, Thread>, chain: seq<Tid>, base: int) returns (d: Tid)
    requires (forall d <- chain :: d in ts) && ChainMax(ts, chain, base) != base
    ensures d in chain && ts[d].beneElem.priority == ChainMax(ts, chain, base)
  {
    assert forall d <- chain[1..] :: d in chain;
    if ts[chain[0]].beneElem.priority == ChainMax(ts, chain, base) {
      d := chain[0];
    } else {
      d := ChainMaxAttained(ts, chain[1..], base);
    }
  }

  lemma {:induction false} ExtendDonorPath(s: State, q: seq<Tid>, t: Tid)
    requires DonorPath(s, q) && t in s.threads && q[|q| - 1] in s.threads[t].chain
    ensures DonorPath(s, q + [t])
    decreases |q|
  {
    var r := q + [t];
    if |q| == 1 {
      assert r[1..] == [t];
    } else {
      ExtendDonorPath(s, q[1..], t);
      assert r[1..] == q[1..] + [t];
    }
  }

  /** A path without repetition is no longer than the number of threads. */
  lemma PathFits(s: State, p: seq<Tid>)
    requires IsBenePath(s, p)
    ensures |p| <= |s.threads|
  {
    PathDistinct(s, p);
    DistinctFits(p, s.threads.Keys);
  }

  lemma {:induction false} DistinctFits(p: seq<Tid>, keys: set<Tid>)
    requires Distinct(p) && forall t <- p :: t in keys
    ensures |p| <= |keys|
  {
    if p != [] {
      forall t | t in p[1..] ensures t in keys - {p[0]} {
        var i :| 0 <= i < |p[1..]| && p[1..][i] == t;
        assert p[i + 1] == t;
      }
      DistinctFits(p[1..], keys - {p[0]});
    }
  }

  // ----- locks -----

  ghost predicate OwesOnlyForHeld(s: State, c: Tid) {
    && ChainOk(s, c) && s.threads[c].priority == Exact(s, c)
    && forall d <- s.threads[c].chain ::
         && s.threads[d].pc == InDown(s.threads[d].beneElem.lock)
         && s.threads[d].beneElem.lock in s.locks
         && s.locks[s.threads[d].beneElem.lock].holder == Some(c)
         && s.threads[d].beneElem.priority == s.threads[d].priority
  }

  /** Once `lock_release` has finished, the releaser runs at the maximum of its base priority and the
      donations of threads that wait for a lock it still holds; it keeps no other donation. */
  lemma ReleaseDropsDonations(s: State)
    requires Inv(s) && CanFinish(s)
    ensures Inv(FinishRelease(s)) && OwesOnlyForHeld(FinishRelease(s), s.current)
  {
    var c, s' := s.current, FinishRelease(s);
    FinishReleaseKeeps(s);
    assert PriorityOk(s', c) && Linked(s', c);
    forall d <- s'.threads[c].chain
      ensures s'.threads[d].pc == InDown(s'.threads[d].beneElem.lock)
      ensures s'.threads[d].beneElem.priority == s'.threads[d].priority
    {
      assert Donor(s', d);
    }
  }

  /** Mutual exclusion over every step: a lock loses its holder only by that holder's release, and gets one
      only while it has none, namely the thread whose acquiring goes through. */
  lemma HolderNext(s: State, a: Step, l: LockId)
    requires Inv(s) && Enabled(s, a) && l in s.locks
    ensures l in Next(s, a).locks
    ensures Next(s, a).locks[l].holder ==
      if a == ReleaseStep(l) then None
      else if (a == AcquireStep(l) || a == RetryStep(l)) && s.locks[l].holder == None then Some(s.current)
      else s.locks[l].holder
    ensures a == ReleaseStep(l) ==> s.locks[l].holder == Some(s.current)
  {
    match a
    case AcquireStep(k) => DownHolder(if s.locks[k].holder.Some? then Donate(s, k) else s, k, l);
    case RetryStep(k) => DownHolder(s, k, l);
    case ReleaseStep(k) => ReleaseHolder(s, k, l);
    case FinishReleaseStep =>
      var s1 := UpdatePriority(s, s.current);
      YieldLocks(With(s1, s.current, s1.threads[s.current].(pc := Normal)));
    case SetPriorityStep(p) => YieldLocks(Based(s, p));
    case YieldStep => YieldLocks(s);
    case BlockStep =>
    case UnblockStep(t) =>
    case CreateStep(t, p) => YieldLocks(Born(s, t, p));
  }

  /** Locks neither come nor go. */
  lemma LocksStay(s: State, a: Step)
    requires Inv(s) && Enabled(s, a)
    ensures Next(s, a).locks.Keys == s.locks.Keys
  {
    match a
    case AcquireStep(k) => DownLocks(if s.locks[k].holder.Some? then Donate(s, k) else s, k);
    case RetryStep(k) => DownLocks(s, k);
    case ReleaseStep(k) => YieldLocks(Up(LetGo(s, k), k));
    case FinishReleaseStep =>
      var s1 := UpdatePriority(s, s.current);
      YieldLocks(With(s1, s.current, s1.threads[s.current].(pc := Normal)));
    case SetPriorityStep(p) => YieldLocks(Based(s, p));
    case YieldStep => YieldLocks(s);
    case BlockStep =>
    case UnblockStep(t) =>
    case CreateStep(t, p) => YieldLocks(Born(s, t, p));
  }

  lemma DownLocks(s: State, k: LockId)
    requires ListsOk(s) && k in s.locks
    ensures Down(s, k).locks.Keys == s.locks.Keys
  {
  }

  lemma YieldLocks(s: State)
    requires ListsOk(s)
    ensures Yield(s).locks == s.locks
  {
  }

  lemma DownHolder(s: State, k: LockId, l: LockId)
    requires ListsOk(s) && k in s.locks && l in s.locks && (s.locks[k].value == 0 <==> s.locks[k].holder.Some?)
    ensures l in Down(s, k).locks
    ensures Down(s, k).locks[l].holder ==
      if k == l && s.locks[l].holder == None then Some(s.current) else s.locks[l].holder
  {
  }

  lemma ReleaseHolder(s: State, k: LockId, l: LockId)
    requires Inv(s) && CanRelease(s, k) && l in s.locks
    ensures l in Release(s, k).locks && Release(s, k).locks[l].holder == if k == l then None else s.locks[l].holder
  {
    YieldLocks(Up(LetGo(s, k), k));
  }

  lemma AtLeastDonor(s: State, h: Tid, d: Tid)
    requires Inv(s) && h in s.threads && d in s.threads[h].chain
    ensures d in s.threads && s.threads[d].priority <= s.threads[h].priority
  {
    assert Linked(s, h);
    assert DonorPath(s, [d, h]) by { assert [d, h][1..] == [h]; }
    AtLeastEveryDonor(s, [d, h]);
  }

  /** The element a thread keeps on its stack is in no chain by the time `lock_acquire` returns, so
      no list ever points into a dead stack frame. */
  lemma ElementUnlinked(s: State, d: Tid)
    requires Inv(s) && d in s.threads && !s.threads[d].pc.InDown?
    ensures Unlinked(s, d)
  {
    forall t, e | t in s.threads && e in s.threads[t].chain
      ensures e != d
    {
      assert Linked(s, t) && Donor(s, e);
    }
  }

  /** `sema_up` wakes a waiter of the highest priority, and of those the one that came last. */
  lemma UpWakes(s: State, l: LockId)
    requires Scheduling(s) && l in s.locks && s.locks[l].waiters != []
    ensures ListsOk(s)
    ensures exists m :: LastLargest(Keys(s, s.locks[l].waiters), m) && Wakes(s, Up(s, l), l, m)
  {
    var waiters := s.locks[l].waiters;
    UpQueues(s, l);
    var m := MaxIndex(Keys(s, waiters), PriorityLess());
    LastOfTheLargest(Keys(s, waiters));
    assert Wakes(s, Up(s, l), l, m);
  }

  /** The m-th waiter is ready, at the front of the ready list, and off the waiter list. */
  ghost predicate Wakes(s: State, s': State, l: LockId, m: int)
    requires l in s.locks
  {
    var waiters := s.locks[l].waiters;
    && 0 <= m < |waiters| && waiters[m] in s'.threads
    && s'.threads[waiters[m]].status == READY && s'.ready == [waiters[m]] + s.ready
    && s'.locks == s.locks[l := Lock(s.locks[l].holder, s.locks[l].value + 1, RemoveAt(waiters, m))]
  }

  // ----- a cycle without a deadlock -----

  const NO_ELEM := PriorityElem(0, 0)

  function At31(status: Status, bene: Option<Tid>, elem: PriorityElem, chain: seq<Tid>, pc: Pc): Thread {
    Thread(status, 31, bene, elem, 31, chain, pc)
  }

  /** Threads 1, 2 and 3 at the default priority, the idle thread 0, and the locks 0 and 1. */
  function Three(t1: Thread, t2: Thread, t3: Thread, l0: Lock, l1: Lock, ready: seq<Tid>, current: Tid): State {
    State(map[0 := Thread(BLOCKED, 0, None, NO_ELEM, 0, [], Normal), 1 := t1, 2 := t2, 3 := t3],
          map[0 := l0, 1 := l1], ready, current, 0)
  }

  const RUNS := At31(RUNNING, None, NO_ELEM, [], Normal)
  const WAITS := At31(READY, None, NO_ELEM, [], Normal)
  const FREE := Lock(None, 1, [])

  /** Among threads of equal priority the scheduler takes the last one on the list. */
  lemma PicksLast(s: State)
    requires ListsOk(s) && s.ready != []
    requires forall i :: 0 <= i < |s.ready| ==> s.threads[s.ready[i]].priority == 31
    ensures Schedule(s) == Dispatch(s.(ready := s.ready[..|s.ready| - 1]), s.ready[|s.ready| - 1])
  {
    var last := |s.ready| - 1;
    LastOfTheLargest(Keys(s, s.ready));
    assert MaxIndex(Keys(s, s.ready), PriorityLess()) == last;
    assert RemoveAt(s.ready, last) == s.ready[..last];
  }

  /** A donation to a holder that itself waits for nothing goes no further than the holder. */
  lemma ShortDonation(s: State, l: LockId, h: Tid)
    requires CanAcquire(s, l) && s.locks[l].holder == Some(h) && h in s.threads && s.threads[h].bene == None
    ensures PathFrom(s, h) == [h] && ChainOk(Push(s, l, h), h)
    ensures var s2 := UpdatePriority(Push(s, l, h), h);
      s.current in s2.threads && Donate(s, l) == With(s2, s.current, s2.threads[s.current].(bene := Some(h)))
  {
    assert IsBenePath(s, [h]);
    PathUnique(s, PathFrom(s, h), [h]);
    AllChainsOk(s, Push(s, l, h));
    assert Propagate(Push(s, l, h), [h]) == UpdatePriority(Push(s, l, h), h);
  }

  /** The current thread gives way to the last one on a list of equals. */
  lemma YieldsToLast(s: State)
    requires ListsOk(s) && s.current != s.idle && s.ready != [] && s.current !in s.ready
    requires s.threads[s.current].priority == 31
    requires forall i :: 0 <= i < |s.ready| ==> s.threads[s.ready[i]].priority == 31
    ensures var last := |s.ready| - 1; var next := s.ready[last];
      && next in s.threads
      && var ts := s.threads[s.current := s.threads[s.current].(status := READY)];
        Yield(s) == s.(threads := ts[next := ts[next].(status := RUNNING)],
                       ready := [s.current] + s.ready[..last], current := next)
  {
    var a := PutBack(s);
    PicksLast(a);
    assert s.ready[|s.ready| - 1] in s.ready;
    assert a.ready[..|a.ready| - 1] == [s.current] + s.ready[..|s.ready| - 1];
  }

  const IDLES := Thread(BLOCKED, 0, None, NO_ELEM, 0, [], Normal)
  const ELEM := PriorityElem(31, 0)
  const ASLEEP := At31(BLOCKED, Some(1), ELEM, [], InDown(0))
  const WOKEN := At31(RUNNING, Some(1), ELEM, [], InDown(0))

  const S0 := State(map[0 := IDLES, 1 := RUNS], map[0 := FREE, 1 := FREE], [], 1, 0)
  const S1 := State(map[0 := IDLES, 1 := WAITS, 2 := RUNS], map[0 := FREE, 1 := FREE], [1], 2, 0)
  const S2 := Three(RUNS, WAITS, WAITS, FREE, FREE, [2, 3], 1)
  const S3 := Three(RUNS, WAITS, WAITS, Lock(Some(1), 0, []), FREE, [2, 3], 1)
  const S4 := Three(WAITS, WAITS, RUNS, Lock(Some(1), 0, []), FREE, [1, 2], 3)
  const S5 := Three(WAITS, WAITS, RUNS, Lock(Some(1), 0, []), Lock(Some(3), 0, []), [1, 2], 3)
  const D5 := Three(At31(READY, None, NO_ELEM, [3], Normal), WAITS, At31(RUNNING, Some(1), ELEM, [], Normal),
                    Lock(Some(1), 0, []), Lock(Some(3), 0, []), [1, 2], 3)
  const S6 := Three(At31(READY, None, NO_ELEM, [3], Normal), RUNS, ASLEEP,
                    Lock(Some(1), 0, [3]), Lock(Some(3), 0, []), [1], 2)
  const D6 := Three(At31(READY, None, NO_ELEM, [2, 3], Normal), At31(RUNNING, Some(1), ELEM, [], Normal), ASLEEP,
                    Lock(Some(1), 0, [3]), Lock(Some(3), 0, []), [1], 2)
  const S7 := Three(At31(RUNNING, None, NO_ELEM, [2, 3], Normal), ASLEEP, ASLEEP,
                    Lock(Some(1), 0, [3, 2]), Lock(Some(3), 0, []), [], 1)
  const D7 := Three(At31(RUNNING, None, NO_ELEM, [], InRelease), ASLEEP, ASLEEP,
                    Lock(None, 0, [3, 2]), Lock(Some(3), 0, []), [], 1)
  const U7 := Three(At31(RUNNING, None, NO_ELEM, [], InRelease), At31(READY, Some(1), ELEM, [], InDown(0)), ASLEEP,
                    Lock(None, 1, [3]), Lock(Some(3), 0, []), [2], 1)
  const S8 := Three(At31(READY, None, NO_ELEM, [], InRelease), WOKEN, ASLEEP,
                    Lock(None, 1, [3]), Lock(Some(3), 0, []), [1], 2)
  const S9 := Three(At31(READY, None, NO_ELEM, [], InRelease), At31(RUNNING, None, ELEM, [], Normal), ASLEEP,
                    Lock(Some(2), 0, [3]), Lock(Some(3), 0, []), [1], 2)
  const S10 := Three(At31(RUNNING, None, NO_ELEM, [], InRelease), At31(READY, None, ELEM, [], Normal), ASLEEP,
                     Lock(Some(2), 0, [3]), Lock(Some(3), 0, []), [2], 1)
  const S11 := Three(WAITS, At31(RUNNING, None, ELEM, [], Normal), ASLEEP,
                     Lock(Some(2), 0, [3]), Lock(Some(3), 0, []), [1], 2)
  const S12 := Three(RUNS, At31(READY, None, ELEM, [], Normal), ASLEEP,
                     Lock(Some(2), 0, [3]), Lock(Some(3), 0, []), [2], 1)

  lemma BootState()
    ensures S0 == Boot(1, 0, {0, 1})
  {
    assert Boot(1, 0, {0, 1}).locks == map[0 := FREE, 1 := FREE];
  }

  // Thread 1 creates threads 2 and 3.

  lemma Run1()
    ensures Enabled(S0, CreateStep(2, 31)) && Next(S0, CreateStep(2, 31)) == S1
  {
    YieldsToLast(Born(S0, 2, 31));
  }

  lemma Run2()
    ensures Enabled(S1, CreateStep(3, 31)) && Next(S1, CreateStep(3, 31)) == S2
  {
    YieldsToLast(Born(S1, 3, 31));
    assert [2] + [3, 1][..1] == [2, 3];
  }

  // Thread 1 takes lock 0 and thread 3 takes lock 1.

  lemma Run3()
    ensures Enabled(S2, AcquireStep(0)) && Next(S2, AcquireStep(0)) == S3
  {
  }

  lemma Run4()
    ensures Enabled(S3, YieldStep) && Next(S3, YieldStep) == S4
  {
    YieldsToLast(S3);
    assert [1] + [2, 3][..1] == [1, 2];
  }

  lemma Run5()
    ensures Enabled(S4, AcquireStep(1)) && Next(S4, AcquireStep(1)) == S5
  {
  }

  // Threads 3 and 2 wait for lock 0 and donate to thread 1.

  lemma Donation5()
    requires CanAcquire(S5, 0)
    requires ChainOk(Push(S5, 0, 1), 1)
    requires var s2 := UpdatePriority(Push(S5, 0, 1), 1); Donate(S5, 0) == With(s2, 3, s2.threads[3].(bene := Some(1)))
    ensures Donate(S5, 0) == D5
  {
    var p := Push(S5, 0, 1);
    assert p.threads[1].chain == [3] && p.threads[3].beneElem == ELEM;
    assert ChainMax(p.threads, [], 31) == 31;
    assert ChainMax(p.threads, [3], 31) == 31 by { assert [3][1..] == []; }
    assert Exact(p, 1) == 31;
  }

  lemma Donation6()
    requires CanAcquire(S6, 0)
    requires ChainOk(Push(S6, 0, 1), 1)
    requires var s2 := UpdatePriority(Push(S6, 0, 1), 1); Donate(S6, 0) == With(s2, 2, s2.threads[2].(bene := Some(1)))
    ensures Donate(S6, 0) == D6
  {
    var p := Push(S6, 0, 1);
    assert p.threads[1].chain == [2, 3] && p.threads[2].beneElem == ELEM && p.threads[3].beneElem == ELEM;
    assert [2, 3][1..] == [3];
    assert ChainMax(p.threads, [3], 31) == 31;
    assert Exact(p, 1) == 31;
  }

  lemma Sleep5()
    ensures ListsOk(D5) && Down(D5, 0) == S6
  {
    var a := Three(At31(READY, None, NO_ELEM, [3], Normal), WAITS, ASLEEP,
                   Lock(Some(1), 0, [3]), Lock(Some(3), 0, []), [1, 2], 3);
    assert FallAsleep(D5, 0).locks[0].waiters == [3];
    assert FallAsleep(D5, 0).threads == a.threads && FallAsleep(D5, 0).locks == a.locks;
    PicksLast(a);
    assert a.ready[..1] == [1];
  }

  lemma Sleep6()
    ensures ListsOk(D6) && Down(D6, 0) == S7
  {
    var a := Three(At31(READY, None, NO_ELEM, [2, 3], Normal), ASLEEP, ASLEEP,
                   Lock(Some(1), 0, [3, 2]), Lock(Some(3), 0, []), [1], 2);
    assert FallAsleep(D6, 0).locks[0].waiters == [3, 2];
    assert FallAsleep(D6, 0).threads == a.threads && FallAsleep(D6, 0).locks == a.locks;
    PicksLast(a);
    assert a.ready[..0] == [];
  }

  lemma Run6()
    ensures Enabled(S5, AcquireStep(0)) && Safe(S5, AcquireStep(0)) && Next(S5, AcquireStep(0)) == S6
  {
    assert IsBenePath(S5, [1]);
    ShortDonation(S5, 0, 1);
    Donation5();
    Sleep5();
  }

  lemma Run7()
    ensures Enabled(S6, AcquireStep(0)) && Safe(S6, AcquireStep(0)) && Next(S6, AcquireStep(0)) == S7
  {
    assert IsBenePath(S6, [1]);
    ShortDonation(S6, 0, 1);
    Donation6();
    Sleep6();
  }

  // Thread 1 releases lock 0; thread 2 takes it while thread 3 goes on sleeping.

  lemma LetGo7()
    ensures CanRelease(S7, 0) && LetGo(S7, 0) == D7
  {
    var s1 := WithLock(S7, 0, S7.locks[0].(holder := None));
    assert [2, 3][1..] == [3];
    assert StillHeld(s1, 1, [3]) == [];
    assert StillHeld(s1, 1, [2, 3]) == [];
  }

  lemma Up7()
    ensures ListsOk(D7) && Up(D7, 0) == U7
  {
    LastOfTheLargest(Keys(D7, [3, 2]));
    assert RemoveAt([3, 2], 1) == [3];
  }

  lemma Run8()
    ensures Enabled(S7, ReleaseStep(0)) && Next(S7, ReleaseStep(0)) == S8
  {
    LetGo7();
    Up7();
    YieldsToLast(U7);
    assert [1] + [2][..0] == [1];
  }

  lemma Run9()
    ensures Enabled(S8, RetryStep(0)) && Next(S8, RetryStep(0)) == S9
  {
  }

  lemma Run10()
    ensures Enabled(S9, YieldStep) && Next(S9, YieldStep) == S10
  {
    YieldsToLast(S9);
  }

  lemma Run11()
    ensures Enabled(S10, FinishReleaseStep) && Next(S10, FinishReleaseStep) == S11
  {
    var a := UpdatePriority(S10, 1);
    YieldsToLast(With(a, 1, a.threads[1].(pc := Normal)));
  }

  lemma Run12()
    ensures Enabled(S11, YieldStep) && Next(S11, YieldStep) == S12
  {
    YieldsToLast(S11);
  }

  lemma Prepend(s: State, a: Step, s1: State, rest: seq<Step>, s': State)
    requires Enabled(s, a) && Safe(s, a) && Next(s, a) == s1 && SafeRun(s1, rest, s')
    ensures SafeRun(s, [a] + rest, s')
  {
    assert ([a] + rest)[1..] == rest;
  }

  lemma LastYield()
    ensures SafeRun(S11, [YieldStep], S12)
  {
    Run12();
    Prepend(S11, YieldStep, S12, [], S12);
  }

  lemma LastTwo()
    ensures SafeRun(S10, [FinishReleaseStep] + [YieldStep], S12)
  {
    LastYield();
    Run11();
    Prepend(S10, FinishReleaseStep, S11, [YieldStep], S12);
  }

  lemma LastPart() returns (steps: seq<Step>)
    ensures SafeRun(S9, steps, S12)
  {
    LastTwo();
    Run10();
    steps := [FinishReleaseStep] + [YieldStep];
    Prepend(S9, YieldStep, S10, steps, S12);
    steps := [YieldStep] + steps;
  }

  lemma MiddlePart() returns (steps: seq<Step>)
    ensures SafeRun(S6, steps, S12)
  {
    Run7(); Run8(); Run9();
    steps := LastPart();
    Prepend(S8, RetryStep(0), S9, steps, S12);
    steps := [RetryStep(0)] + steps;
    Prepend(S7, ReleaseStep(0), S8, steps, S12);
    steps := [ReleaseStep(0)] + steps;
    Prepend(S6, AcquireStep(0), S7, steps, S12);
    steps := [AcquireStep(0)] + steps;
  }

  lemma FirstPart() returns (steps: seq<Step>)
    ensures SafeRun(S3, steps, S12)
  {
    Run4(); Run5(); Run6();
    steps := MiddlePart();
    Prepend(S5, AcquireStep(0), S6, steps, S12);
    steps := [AcquireStep(0)] + steps;
    Prepend(S4, AcquireStep(1), S5, steps, S12);
    steps := [AcquireStep(1)] + steps;
    Prepend(S3, YieldStep, S4, steps, S12);
    steps := [YieldStep] + steps;
  }

  /** S12 is an ordinary reachable state: twelve safe steps lead to it from boot. */
  lemma Reached() returns (steps: seq<Step>)
    ensures SafeRun(Boot(1, 0, {0, 1}), steps, S12)
  {
    BootState();
    Run1(); Run2(); Run3();
    steps := FirstPart();
    Prepend(S2, AcquireStep(0), S3, steps, S12);
    steps := [AcquireStep(0)] + steps;
    Prepend(S1, CreateStep(3, 31), S2, steps, S12);
    steps := [CreateStep(3, 31)] + steps;
    Prepend(S0, CreateStep(2, 31), S1, steps, S12);
    steps := [CreateStep(2, 31)] + steps;
  }

  lemma ReachedGood()
    ensures Inv(S12)
  {
    BootGood(1, 0, {0, 1});
    var steps := Reached();
    RunKeeps(Boot(1, 0, {0, 1}), steps, S12);
  }

  /** There thread 1 asks for lock 1.  Its holder, thread 3, still names thread 1 as its beneficiary, so
      the donation closes a cycle, and the next one would follow it for ever.  Nobody is deadlocked:
      thread 2, which holds the lock thread 3 waits for, is ready to run. */
  lemma CycleWithoutDeadlock()
    ensures Inv(S12) && Enabled(S12, AcquireStep(1)) && !Acyclic(Next(S12, AcquireStep(1)))
    ensures var s' := Next(S12, AcquireStep(1));
      && 1 in s'.threads && s'.threads[1].bene == Some(3) && 3 in s'.threads && s'.threads[3].bene == Some(1)
      && 0 in s'.locks && s'.locks[0].holder == Some(2) && 2 in s'.threads && s'.threads[2].status == RUNNING
  {
    ReachedGood();
    OnPathOfThree();
    AcquireKeepsIff(S12, 1);
    Asleep12();
  }

  lemma OnPathOfThree()
    requires Acyclic(S12)
    ensures HasPath(S12, 3) && PathFrom(S12, 3) == [3, 1]
  {
    assert IsBenePath(S12, [3, 1]) by { assert [3, 1][1..] == [1]; }
    PathUnique(S12, PathFrom(S12, 3), [3, 1]);
  }

  /** Thread 1 donates to thread 3 and sleeps; thread 2 is the only one left to run. */
  lemma Asleep12()
    requires CanAcquire(S12, 1)
    ensures var s' := Acquire(S12, 1);
      && 1 in s'.threads && s'.threads[1].bene == Some(3) && 3 in s'.threads && s'.threads[3].bene == Some(1)
      && 0 in s'.locks && s'.locks[0].holder == Some(2) && 2 in s'.threads && s'.threads[2].status == RUNNING
  {
    var d := Donate(S12, 1);
    assert d.ready == [2] && d.locks == S12.locks && d.current == 1;
    assert d.threads[1].bene == Some(3) && d.threads[3].bene == Some(1);
  }
}
