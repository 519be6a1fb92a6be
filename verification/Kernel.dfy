/**
 The scheduler and the lock operations as they run: fields updated in place, lists scanned element by
 element (proj1/src/threads/thread.c and synch.c).  Each method is proved to take the kernel from its
 old snapshot to the one the step functions of module Threads describe, and a step that starts in a
 good state ends in one.
 */
module Kernels {
  import opened Lists
  import opened Threads
  import opened Donation
  import opened DonationSteps
  import opened SchedulerLaws

  class Kernel {
    var threads: map<Tid, Thread>
    var locks: map<LockId, Lock>
    var ready: seq<Tid>
    var current: Tid
    const idle: Tid

    ghost function Snapshot(): State
      reads this
    {
      State(threads, locks, ready, current, idle)
    }

    /** `thread_init`. */
    constructor (main: Tid, idle: Tid, lockIds: set<LockId>)
      requires main != idle
      ensures Snapshot() == Boot(main, idle, lockIds) && Inv(Snapshot())
    {
      threads := map[main := Thread(RUNNING, 31, None, PriorityElem(0, 0), 31, [], Normal),
                     idle := Thread(BLOCKED, 0, None, PriorityElem(0, 0), 0, [], Normal)];
      locks := map l <- lockIds :: Lock(None, 1, []);
      ready := [];
      current := main;
      this.idle := idle;
      new;
      BootGood(main, idle, lockIds);
    }

    // ----- donation -----

    /** `thread_update_priority`. */
    method ThreadUpdatePriority(t: Tid)
      requires ChainOk(Snapshot(), t)
      modifies this`threads
      ensures Snapshot() == UpdatePriority(old(Snapshot()), t)
    {
      var r := threads[t];
      var priority := r.initPri;
      if r.chain != [] {
        var keys := Donations(threads, r.chain);
        var le := ListMax(keys, PriElemLess());
        FirstOfTheLargest(keys);
        ChainMaxOfKeys(threads, r.chain, r.initPri, keys, le);
        var chainPri := threads[r.chain[le]].beneElem.priority;
        if chainPri > priority {
          priority := chainPri;
        }
      }
      threads := threads[t := r.(priority := priority)];
    }

    /** `thread_update_donation`; the recursion ends because the path of beneficiaries does. */
    method ThreadUpdateDonation(t: Tid, ghost path: seq<Tid>)
      requires IsBenePath(Snapshot(), path) && path[0] == t
      requires forall u <- path :: ChainOk(Snapshot(), u)
      modifies this`threads
      ensures Snapshot() == Propagate(old(Snapshot()), path)
      decreases |path|
    {
      ghost var s := Snapshot();
      ThreadUpdatePriority(t);
      var r := threads[t];
      if r.bene.Some? {
        threads := threads[t := r.(beneElem := r.beneElem.(priority := r.priority))];
        PathDistinct(s, path);
        PathTransfer(s, Snapshot(), path[1..]);
        assert forall u <- path[1..] :: u in path;
        ChainsKept(s, Snapshot(), path[1..]);
        ThreadUpdateDonation(r.bene.value, path[1..]);
      }
    }

    /** The walk along the chain in `thread_release_priorities`. */
    method KeepHeld(t: Tid, chain: seq<Tid>) returns (kept: seq<Tid>)
      requires LocksKnown(Snapshot(), chain)
      ensures kept == StillHeld(Snapshot(), t, chain)
    {
      var rest := chain;
      kept := [];
      while rest != []
        invariant LocksKnown(Snapshot(), rest)
        invariant kept + StillHeld(Snapshot(), t, rest) == StillHeld(Snapshot(), t, chain)
        decreases |rest|
      {
        var e := rest[0];
        StillHeldStep(Snapshot(), t, rest);
        ghost var tail := StillHeld(Snapshot(), t, rest[1..]);
        assert kept + ([e] + tail) == (kept + [e]) + tail;
        if locks[threads[e].beneElem.lock].holder == Some(t) {
          kept := kept + [e];
        }
        rest := rest[1..];
      }
      assert kept + [] == kept;
    }

    /** `thread_release_priorities`. */
    method ThreadReleasePriorities()
      requires current in threads && LocksKnown(Snapshot(), threads[current].chain)
      modifies this`threads
      ensures Snapshot() == With(old(Snapshot()), current, old(threads)[current].(
        chain := StillHeld(old(Snapshot()), current, old(threads)[current].chain)))
    {
      var kept := KeepHeld(current, threads[current].chain);
      threads := threads[current := threads[current].(chain := kept)];
    }

    // ----- scheduling -----

    /** `next_thread_to_run`. */
    method NextThreadToRun() returns (next: Tid)
      requires ListsOk(Snapshot())
      modifies this`ready
      ensures next in threads && Dispatch(Snapshot(), next) == Schedule(old(Snapshot()))
    {
      if ready == [] {
        return idle;
      }
      var m := ListMax(Priorities(threads, ready), PriorityLess());
      next := ready[m];
      assert next in ready;
      ready := RemoveAt(ready, m);
    }

    /** `schedule`, with the switch to the thread it chose. */
    method ScheduleNext()
      requires ListsOk(Snapshot())
      modifies this`threads, this`ready, this`current
      ensures Snapshot() == Schedule(old(Snapshot()))
    {
      var next := NextThreadToRun();
      threads := threads[next := threads[next].(status := RUNNING)];
      current := next;
    }

    method Yielding()
      requires ListsOk(Snapshot())
      modifies this`threads, this`ready, this`current
      ensures Snapshot() == Yield(old(Snapshot()))
    {
      if current != idle {
        ready := [current] + ready;
      }
      threads := threads[current := threads[current].(status := READY)];
      ScheduleNext();
    }

    /** `thread_yield`. */
    method ThreadYield()
      requires Inv(Snapshot())
      modifies this`threads, this`ready, this`current
      ensures Snapshot() == Yield(old(Snapshot())) && Inv(Snapshot())
    {
      YieldKeeps(Snapshot());
      Yielding();
    }

    /** `thread_block`. */
    method ThreadBlock()
      requires Inv(Snapshot()) && threads[current].pc.Normal?
      modifies this`threads, this`ready, this`current
      ensures Snapshot() == Block(old(Snapshot())) && Inv(Snapshot())
    {
      BlockKeeps(Snapshot());
      var pc := if current == idle then Normal else Asleep;
      threads := threads[current := threads[current].(status := BLOCKED, pc := pc)];
      ScheduleNext();
    }

    /** `thread_unblock`. */
    method ThreadUnblock(t: Tid)
      requires Inv(Snapshot()) && CanUnblock(Snapshot(), t)
      modifies this`threads, this`ready
      ensures Snapshot() == Unblock(old(Snapshot()), t) && Inv(Snapshot())
    {
      UnblockKeeps(Snapshot(), t);
      ready := [t] + ready;
      threads := threads[t := threads[t].(status := READY, pc := Normal)];
    }

    /** `thread_create`. */
    method ThreadCreate(t: Tid, priority: int)
      requires Inv(Snapshot()) && t !in threads && current != idle
      modifies this`threads, this`ready, this`current
      ensures Snapshot() == Create(old(Snapshot()), t, priority) && Inv(Snapshot())
    {
      CreateKeeps(Snapshot(), t, priority);
      threads := threads[t := Thread(BLOCKED, priority, None, PriorityElem(0, 0), priority, [], Normal)];
      ready := [t] + ready;
      threads := threads[t := threads[t].(status := READY)];
      Yielding();
    }

    /** `thread_set_priority`; a thread in ordinary code has no beneficiary to pass the change on to. */
    method ThreadSetPriority(p: int)
      requires Inv(Snapshot()) && CanSetPriority(Snapshot())
      modifies this`threads, this`ready, this`current
      ensures Snapshot() == SetPriority(old(Snapshot()), p) && Inv(Snapshot())
      ensures old(current) in threads && threads[old(current)].initPri == p && HighestRuns(Snapshot())
    {
      SetPriorityKeeps(Snapshot(), p);
      SetPriorityIs(Snapshot(), p);
      SetBase(p);
      Yielding();
    }

    /** `thread_set_priority` up to its `thread_yield`. */
    method SetBase(p: int)
      requires Inv(Snapshot()) && CanSetPriority(Snapshot())
      modifies this`threads
      ensures Snapshot() == Based(old(Snapshot()), p)
    {
      ghost var s := Snapshot();
      ghost var path := PathFrom(s, current);
      threads := threads[current := threads[current].(initPri := p)];
      AllChainsOk(s, Snapshot());
      PathTransfer(s, Snapshot(), path);
      ThreadUpdateDonation(current, path);
    }

    // ----- semaphores and locks -----

    /** `sema_up` up to its call of `thread_yield`. */
    method SemaUp(l: LockId)
      requires ListsOk(Snapshot()) && l in locks
      modifies this`threads, this`locks, this`ready
      ensures Snapshot() == Up(old(Snapshot()), l)
    {
      if locks[l].waiters != [] { WakeWaiter(l); }
      locks := locks[l := locks[l].(value := locks[l].value + 1)];
      assert locks == old(locks)[l := locks[l]];
    }

    /** The waiter that `list_max` picks leaves the list and is ready. */
    method WakeWaiter(l: LockId)
      requires ListsOk(Snapshot()) && l in locks && locks[l].waiters != []
      modifies this`threads, this`locks, this`ready
      ensures var s := old(Snapshot());
        var waiters := s.locks[l].waiters;
        var m := MaxIndex(Keys(s, waiters), PriorityLess());
        && waiters[m] in s.threads
        && Snapshot() == MakeReady(WithLock(s, l, s.locks[l].(waiters := RemoveAt(waiters, m))), waiters[m])
    {
      var waiters := locks[l].waiters;
      var m := ListMax(Priorities(threads, waiters), PriorityLess());
      var t := waiters[m];
      locks := locks[l := locks[l].(waiters := RemoveAt(waiters, m))];
      assert t in waiters;
      ready := [t] + ready;
      threads := threads[t := threads[t].(status := READY)];
    }

    /** One turn of the loop in `sema_down`, and the end of `lock_acquire` when the lock is free. */
    method SemaDown(l: LockId)
      requires ListsOk(Snapshot()) && l in locks
      modifies this`threads, this`locks, this`ready, this`current
      ensures Snapshot() == Down(old(Snapshot()), l)
    {
      if locks[l].value == 0 {
        locks := locks[l := locks[l].(waiters := locks[l].waiters + [current])];
        threads := threads[current := threads[current].(status := BLOCKED, pc := InDown(l))];
        ScheduleNext();
      } else {
        locks := locks[l := locks[l].(value := locks[l].value - 1)];
        locks := locks[l := locks[l].(holder := Some(current))];
        threads := threads[current := threads[current].(bene := None, pc := Normal)];
      }
    }

    /** The donation at the start of `lock_acquire`, with `thread_donate_priority`. */
    method DonateToHolder(l: LockId)
      requires CanAcquire(Snapshot(), l) && locks[l].holder.Some?
      modifies this`threads
      ensures Snapshot() == Donate(old(Snapshot()), l)
    {
      ghost var s := Snapshot();
      var c, h := current, locks[l].holder.value;
      threads := threads[c := threads[c].(beneElem := PriorityElem(threads[c].priority, l))];
      threads := threads[h := threads[h].(chain := [c] + threads[h].chain)];
      ghost var path := PathFrom(s, h);
      assert Snapshot() == Push(s, l, h);
      AllChainsOk(s, Snapshot());
      PathTransfer(s, Snapshot(), path);
      ThreadUpdateDonation(h, path);
      threads := threads[c := threads[c].(bene := Some(h))];
    }

    /** `lock_acquire` until it returns or sleeps. */
    method LockAcquire(l: LockId)
      requires Inv(Snapshot()) && CanAcquire(Snapshot(), l)
      modifies this`threads, this`locks, this`ready, this`current
      ensures Snapshot() == Acquire(old(Snapshot()), l)
      ensures Inv(Snapshot()) <==> Safe(old(Snapshot()), AcquireStep(l))
    {
      StepKeeps(Snapshot(), AcquireStep(l));
      if locks[l].holder.Some? {
        DonateToHolder(l);
      }
      SemaDown(l);
    }

    /** A woken waiter tests the semaphore again. */
    method LockAcquireRetry(l: LockId)
      requires Inv(Snapshot()) && CanRetry(Snapshot(), l)
      modifies this`threads, this`locks, this`ready, this`current
      ensures Snapshot() == Down(old(Snapshot()), l) && Inv(Snapshot())
    {
      StepKeeps(Snapshot(), RetryStep(l));
      SemaDown(l);
    }

    /** `lock_release` until it yields inside `sema_up`. */
    method LockRelease(l: LockId)
      requires Inv(Snapshot()) && CanRelease(Snapshot(), l)
      modifies this`threads, this`locks, this`ready, this`current
      ensures Snapshot() == Release(old(Snapshot()), l) && Inv(Snapshot())
    {
      ReleaseKeeps(Snapshot(), l);
      LetGoQueues(Snapshot(), l);
      UpQueues(LetGo(Snapshot(), l), l);
      DropLock(l);
      SemaUp(l);
      Yielding();
    }

    /** The start of `lock_release`: no holder, no donations for this lock. */
    method DropLock(l: LockId)
      requires CanRelease(Snapshot(), l)
      modifies this`threads, this`locks
      ensures Snapshot() == LetGo(old(Snapshot()), l)
    {
      locks := locks[l := locks[l].(holder := None)];
      ThreadReleasePriorities();
      threads := threads[current := threads[current].(pc := InRelease)];
    }

    /** `lock_release` from there to its end. */
    method LockReleaseFinish()
      requires Inv(Snapshot()) && CanFinish(Snapshot())
      modifies this`threads, this`ready, this`current
      ensures Snapshot() == FinishRelease(old(Snapshot())) && Inv(Snapshot())
    {
      FinishReleaseKeeps(Snapshot());
      ThreadUpdatePriority(current);
      threads := threads[current := threads[current].(pc := Normal)];
      Yielding();
    }
  }

  lemma StillHeldStep(s: State, t: Tid, rest: seq<Tid>)
    requires LocksKnown(s, rest) && rest != []
    ensures LocksKnown(s, rest[1..]) && rest[0] in s.threads && s.threads[rest[0]].beneElem.lock in s.locks
    ensures StillHeld(s, t, rest) ==
      (if s.locks[s.threads[rest[0]].beneElem.lock].holder == Some(t) then [rest[0]] else [])
      + StillHeld(s, t, rest[1..])
  {
    assert rest[0] in rest && forall d <- rest[1..] :: d in rest;
  }

  /** The scan of `list_max` finds what `ChainMax` defines. */
  lemma {:induction false} ChainMaxOfKeys(ts: map<Tid, Thread>, chain: seq<Tid>, base: int, keys: seq<int>, m: nat)
    requires (forall d <- chain :: d in ts) && |keys| == |chain| && m < |keys|
    requires forall i :: 0 <= i < |keys| ==> keys[i] == ts[chain[i]].beneElem.priority <= keys[m]
    ensures ChainMax(ts, chain, base) == if keys[m] > base then keys[m] else base
  {
    ChainMaxAtMost(ts, chain, base, if keys[m] > base then keys[m] else base);
    assert chain[m] in chain;
  }

  lemma {:induction false} ChainMaxAtMost(ts: map<Tid, Thread>, chain: seq<Tid>, base: int, bound: int)
    requires (forall d <- chain :: d in ts) && base <= bound
    requires forall i :: 0 <= i < |chain| ==> ts[chain[i]].beneElem.priority <= bound
    ensures ChainMax(ts, chain, base) <= bound
  {
    if chain != [] {
      assert forall d <- chain[1..] :: d in chain;
      assert forall i :: 0 <= i < |chain[1..]| ==> chain[1..][i] == chain[i + 1];
      ChainMaxAtMost(ts, chain[1..], base, bound);
    }
  }
}
