/**
 The same steps as code over semaphores, locks and conditions that are updated in place
 (proj2/src/threads/synch.c:60-121, 176-250, 287-333).
 */
module SynchCode {
  import opened Lists
  import opened Synch
  import opened SynchSteps
  import opened SynchLaws

  class Synchronizer {
    var sems: map<Sem, Sema>
    var threads: map<Tid, Thread>
    var locks: map<LockId, Lock>
    var conds: map<CondId, Condition>

    ghost function Now(): State
      reads this
    {
      State(sems, threads, locks, conds)
    }

    /** `thread_unblock`. */
    method Unblock(t: Tid)
      requires t in threads && threads[t].pc.Blocked?
      modifies this`threads
      ensures threads == old(threads)[t := old(threads[t]).(pc := Woken(old(threads[t]).pc.s, old(threads[t]).pc.k))]
    {
      threads := threads[t := threads[t].(pc := Woken(threads[t].pc.s, threads[t].pc.k))];
    }

    /** The loop of `sema_down` from one look at the value to the next, and what follows it. */
    method SemaDown(t: Tid, q: Sem, k: Cont)
      requires AtDown(Now(), t, q, k)
      modifies this
      ensures Now() == Down(old(Now()), t, q, k) && Inv(Now())
      ensures t in threads && AfterDown(old(Now()), q, k, threads[t].pc)
    {
      DownKeeps(Now(), t, q, k);
      if sems[q].value == 0 {
        sems := sems[q := sems[q].(waiters := sems[q].waiters + [t])];
        threads := threads[t := threads[t].(pc := Blocked(q, k))];
      } else {
        sems := sems[q := sems[q].(value := sems[q].value - 1, downs := sems[q].downs + 1)];
        Continue(t, k);
      }
    }

    /** Where a completed down returns to. */
    method Continue(t: Tid, k: Cont)
      requires t in threads && Known(Now(), k)
      modifies this`threads, this`locks
      ensures Now() == Continued(old(Now()), t, k)
    {
      match k
      case Return => threads := threads[t := threads[t].(pc := Outside)];
      case TakeLock(l) =>
        locks := locks[l := locks[l].(owner := Some(t))];
        threads := threads[t := threads[t].(pc := SetHolder(l))];
      case Reacquire(c) =>
        var l := conds[c].lock;
        threads := threads[t := threads[t].(pc := Calling(LockSem(l), TakeLock(l)), signal := NotWaiting)];
    }

    /** `sema_up`: the longest waiter is made ready, if there is one. */
    method SemaUp(q: Sem)
      requires CanUp(Now(), q)
      modifies this`sems, this`threads
      ensures Now() == Up(old(Now()), q)
    {
      var waiters := sems[q].waiters;
      if waiters != [] {
        sems := sems[q := sems[q].(waiters := waiters[1..])];
        Unblock(waiters[0]);
      }
      sems := sems[q := sems[q].(value := sems[q].value + 1, ups := sems[q].ups + 1)];
      assert sems == old(sems)[q := sems[q]];
    }

    /** `lock_release`, from clearing the holder to its `sema_up`. */
    method LockRelease(t: Tid, l: LockId, wait: Option<CondId>)
      requires Inv(Now()) && t in threads && threads[t].pc == UpLock(l, wait)
      modifies this
      ensures l in old(locks) && CanUp(old(Now()), LockSem(l))
      ensures Now() == FinishRelease(old(Now()), t, l, wait) && Inv(Now())
    {
      FinishReleaseKeeps(Now(), t, l, wait);
      locks := locks[l := locks[l].(owner := None)];
      SemaUp(LockSem(l));
      var pc := if wait.Some? then Calling(WaiterSem(t), Reacquire(wait.value)) else Outside;
      threads := threads[t := threads[t].(pc := pc)];
    }

    /** `cond_wait` up to its `lock_release`. */
    method CondWait(t: Tid, c: CondId)
      requires Inv(Now()) && t in threads && threads[t].pc.Outside? && c in conds && conds[c].lock in threads[t].held
      modifies this
      ensures Now() == Enqueue(old(Now()), t, c) && Inv(Now())
    {
      EnqueueKeeps(Now(), t, c);
      sems := sems[WaiterSem(t) := Sema(0, [], 0, 0, 0)];
      conds := conds[c := conds[c].(queue := conds[c].queue + [t])];
      threads := threads[t := threads[t].(pc := WaitRelease(c), signal := Queued)];
    }

    /** `cond_signal` up to its `sema_up`, and one turn of `cond_broadcast`. */
    method CondSignal(t: Tid, c: CondId, more: bool)
      requires Picking(Now(), t, c)
      modifies this
      ensures Now() == Dequeue(old(Now()), t, c, more) && Inv(Now())
    {
      DequeueKeeps(Now(), t, c, more);
      var queue := conds[c].queue;
      if queue == [] {
        threads := threads[t := threads[t].(pc := Outside)];
      } else {
        var w := queue[0];
        assert w in queue;
        conds := conds[c := conds[c].(queue := queue[1..])];
        threads := threads[w := threads[w].(signal := InFlight(t))];
        threads := threads[t := threads[t].(pc := SignalUp(c, w, more))];
      }
    }
  }
}
