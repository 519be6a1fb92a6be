/**
 Every step of semaphores, locks and condition variables keeps the invariant.
 */
module SynchSteps {
  import opened Lists
  import opened Synch

  // ----- sema_down -----

  /** Where `sema_down` can be executed from. */
  ghost predicate AtDown(s: State, t: Tid, q: Sem, k: Cont) {
    && Inv(s) && t in s.threads && ContOk(s, t, q, k)
    && match s.threads[t].pc
       case Outside => !k.Reacquire?
       case Calling(q', k') => q' == q && k' == k
       case Woken(q', k') => q' == q && k' == k
       case _ => false
  }

  lemma WokenLess(threads: map<Tid, Thread>, t: Tid, r: Thread, q: Sem)
    requires t in threads && !r.pc.Woken?
    ensures WokenOn(threads[t := r], q) == WokenOn(threads, q) - {t}
    ensures |WokenOn(threads[t := r], q)| >=
      |WokenOn(threads, q)| - if threads[t].pc.Woken? && threads[t].pc.s == q then 1 else 0
  {
    assert WokenOn(threads[t := r], q) == WokenOn(threads, q) - {t};
  }

  /** Thread t was not blocked and is not being woken: the other semaphores stay in order. */
  lemma OtherSem(s: State, s': State, t: Tid, p: Sem)
    requires p in s.sems && SemOk(s, p) && t in s.threads && !s.threads[t].pc.Blocked? && t in s'.threads
    requires s'.threads == s.threads[t := s'.threads[t]] && !s'.threads[t].pc.Woken?
    requires !(s.threads[t].pc.Woken? && s.threads[t].pc.s == p)
    requires p in s'.sems && s'.sems[p] == s.sems[p]
    ensures SemOk(s', p)
  {
    WokenLess(s.threads, t, s'.threads[t], p);
  }

  lemma DownBlocks(s: State, t: Tid, q: Sem, k: Cont)
    requires AtDown(s, t, q, k) && s.sems[q].value == 0
    ensures Inv(Down(s, t, q, k))
  {
    var s' := Down(s, t, q, k);
    assert SemOk(s, q) && SignalOk(s, t) && HeldOk(s, t);
    BlocksSems(s, t, q, k);
    forall u | u in s'.threads ensures PcOk(s', u) && SignalOk(s', u) && HeldOk(s', u) {
      BlocksThread(s, t, q, k, u);
    }
    BlocksRest(s, t, q, k);
  }

  lemma BlocksSems(s: State, t: Tid, q: Sem, k: Cont)
    requires AtDown(s, t, q, k) && s.sems[q].value == 0
    ensures SemsOk(Down(s, t, q, k))
  {
    var s' := Down(s, t, q, k);
    forall p | p in s'.sems ensures SemOk(s', p) {
      assert SemOk(s, p);
      if p == q { PushDistinct(t, s.sems[q].waiters); } else { OtherSem(s, s', t, p); }
    }
  }

  lemma BlocksThread(s: State, t: Tid, q: Sem, k: Cont, u: Tid)
    requires AtDown(s, t, q, k) && s.sems[q].value == 0 && u in s.threads
    ensures var s' := Down(s, t, q, k); PcOk(s', u) && SignalOk(s', u) && HeldOk(s', u)
  {
    assert PcOk(s, u) && SignalOk(s, u) && HeldOk(s, u);
  }

  lemma BlocksRest(s: State, t: Tid, q: Sem, k: Cont)
    requires AtDown(s, t, q, k) && s.sems[q].value == 0
    ensures LocksOk(Down(s, t, q, k)) && CondsOk(Down(s, t, q, k))
  {
    var s' := Down(s, t, q, k);
    assert SignalOk(s, t);
    forall l | l in s'.locks ensures LockOk(s', l) { assert LockOk(s, l); }
    forall c | c in s'.conds ensures CondOk(s', c) { assert CondOk(s, c); }
  }

  lemma DownTakes(s: State, t: Tid, q: Sem, k: Cont)
    requires AtDown(s, t, q, k) && s.sems[q].value > 0
    ensures Inv(Down(s, t, q, k))
  {
    var s' := Down(s, t, q, k);
    TakesSems(s, t, q, k);
    forall u | u in s'.threads ensures PcOk(s', u) && SignalOk(s', u) && HeldOk(s', u) {
      TakesThread(s, t, q, k, u);
    }
    forall l | l in s'.locks ensures LockOk(s', l) { TakesLock(s, t, q, k, l); }
    forall c | c in s'.conds ensures CondOk(s', c) { TakesCond(s, t, q, k, c); }
  }

  lemma TakesSems(s: State, t: Tid, q: Sem, k: Cont)
    requires AtDown(s, t, q, k) && s.sems[q].value > 0
    ensures SemsOk(Down(s, t, q, k))
  {
    var s' := Down(s, t, q, k);
    forall p | p in s'.sems ensures SemOk(s', p) {
      assert SemOk(s, p);
      if p == q { WokenLess(s.threads, t, s'.threads[t], q); } else { OtherSem(s, s', t, p); }
    }
  }

  lemma TakesThread(s: State, t: Tid, q: Sem, k: Cont, u: Tid)
    requires AtDown(s, t, q, k) && s.sems[q].value > 0 && u in s.threads
    ensures var s' := Down(s, t, q, k); PcOk(s', u) && SignalOk(s', u) && HeldOk(s', u)
  {
    TakesPc(s, t, q, k, u);
    assert SignalOk(s, u) && HeldOk(s, u) && SignalOk(s, t);
    if k.TakeLock? { assert LockOk(s, k.l); }
  }

  lemma TakesPc(s: State, t: Tid, q: Sem, k: Cont, u: Tid)
    requires AtDown(s, t, q, k) && s.sems[q].value > 0 && u in s.threads
    ensures PcOk(Down(s, t, q, k), u)
  {
    assert PcOk(s, u) && SignalOk(s, t) && SignalOk(s, u);
    match k
    case Return =>
    case TakeLock(l) => assert LockOk(s, l);
    case Reacquire(c) => assert CondOk(s, c) && LockOk(s, s.conds[c].lock);
  }

  lemma TakesLock(s: State, t: Tid, q: Sem, k: Cont, l: LockId)
    requires AtDown(s, t, q, k) && s.sems[q].value > 0 && l in s.locks
    ensures LockOk(Down(s, t, q, k), l)
  {
    assert LockOk(s, l);
  }

  lemma TakesCond(s: State, t: Tid, q: Sem, k: Cont, c: CondId)
    requires AtDown(s, t, q, k) && s.sems[q].value > 0 && c in s.conds
    ensures CondOk(Down(s, t, q, k), c)
  {
    assert CondOk(s, c) && SignalOk(s, t);
  }

  lemma DownKeeps(s: State, t: Tid, q: Sem, k: Cont)
    requires AtDown(s, t, q, k)
    ensures Inv(Down(s, t, q, k))
  {
    if s.sems[q].value == 0 { DownBlocks(s, t, q, k); } else { DownTakes(s, t, q, k); }
  }

  // ----- sema_up -----

  /** Whoever is on the list can be woken. */
  lemma MayUp(s: State, q: Sem)
    requires SemsOk(s) && q in s.sems
    ensures CanUp(s, q)
  {
    assert SemOk(s, q);
  }

  lemma WokenMore(threads: map<Tid, Thread>, w: Tid, r: Thread, q: Sem)
    requires w in threads && threads[w].pc.Blocked? && r.pc.Woken?
    ensures WokenOn(threads[w := r], q) == WokenOn(threads, q) + if r.pc.s == q then {w} else {}
    ensures |WokenOn(threads[w := r], q)| == |WokenOn(threads, q)| + if r.pc.s == q then 1 else 0
  {
    var now, before := WokenOn(threads[w := r], q), WokenOn(threads, q);
    assert w !in before;
    if r.pc.s == q { assert now == before + {w}; } else { assert now == before; }
  }

  /** One more unit, and one more thread on its way to it unless the list was empty: no wakeup is lost. */
  lemma UpSems(s: State, q: Sem)
    requires SemsOk(s) && CanUp(s, q)
    ensures SemsOk(Up(s, q))
  {
    forall p | p in s.sems ensures SemOk(Up(s, q), p) { UpSem(s, q, p); }
  }

  lemma UpSem(s: State, q: Sem, p: Sem)
    requires SemsOk(s) && CanUp(s, q) && p in s.sems
    ensures SemOk(Up(s, q), p)
  {
    var s', r := Up(s, q), s.sems[q];
    assert SemOk(s, p) && SemOk(s, q);
    if r.waiters != [] {
      var w := r.waiters[0];
      assert w in r.waiters;
      WokenMore(s.threads, w, s'.threads[w], p);
      assert forall x <- r.waiters[1..] :: x in r.waiters && x != w;
      assert p != q ==> w !in s.sems[p].waiters;
    }
  }

  lemma UpStepKeeps(s: State, n: nat)
    requires Inv(s) && UserSem(n) in s.sems
    ensures CanUp(s, UserSem(n)) && Inv(Up(s, UserSem(n)))
  {
    MayUp(s, UserSem(n));
    UpSems(s, UserSem(n));
    var s' := Up(s, UserSem(n));
    assert SemOk(s, UserSem(n));
    forall u | u in s'.threads ensures PcOk(s', u) && SignalOk(s', u) && HeldOk(s', u) {
      UpUserThread(s, n, u);
    }
    forall l | l in s'.locks ensures LockOk(s', l) { assert LockOk(s, l); }
    forall c | c in s'.conds ensures CondOk(s', c) { assert CondOk(s, c); }
  }

  lemma UpUserThread(s: State, n: nat, u: Tid)
    requires Inv(s) && UserSem(n) in s.sems && CanUp(s, UserSem(n)) && u in s.threads
    ensures var s' := Up(s, UserSem(n)); PcOk(s', u) && SignalOk(s', u) && HeldOk(s', u)
  {
    assert PcOk(s, u) && SignalOk(s, u) && HeldOk(s, u) && SemOk(s, UserSem(n));
    if s.sems[UserSem(n)].waiters != [] { Waiter(s, UserSem(n)); }
  }

  /** The first waiter, and what it will look like when woken. */
  lemma Waiter(s: State, q: Sem)
    requires Inv(s) && q in s.sems && s.sems[q].waiters != []
    ensures var w := s.sems[q].waiters[0];
      w in s.threads && s.threads[w].pc.Blocked? && s.threads[w].pc.s == q && ContOk(s, w, q, s.threads[w].pc.k)
  {
    assert SemOk(s, q);
    var w := s.sems[q].waiters[0];
    assert w in s.sems[q].waiters;
    assert PcOk(s, w);
  }

  // ----- the rest of lock_acquire and lock_release -----

  lemma SetHolderKeeps(s: State, t: Tid, l: LockId)
    requires Inv(s) && t in s.threads && s.threads[t].pc == SetHolder(l)
    ensures l in s.locks && Inv(Taken(s, t, l))
  {
    assert PcOk(s, t);
    var s' := Taken(s, t, l);
    forall p | p in s'.sems ensures SemOk(s', p) {
      assert SemOk(s, p);
      OtherSem(s, s', t, p);
    }
    forall u | u in s'.threads ensures PcOk(s', u) && SignalOk(s', u) && HeldOk(s', u) {
      assert PcOk(s, u) && SignalOk(s, u) && HeldOk(s, u);
    }
    forall k | k in s'.locks ensures LockOk(s', k) { assert LockOk(s, k); }
    forall c | c in s'.conds ensures CondOk(s', c) { assert CondOk(s, c); }
  }

  lemma ClearKeeps(s: State, t: Tid, l: LockId, wait: Option<CondId>)
    requires Inv(s) && t in s.threads && l in s.threads[t].held && WaitsFor(s.threads[t].pc) == wait
    requires s.threads[t].pc == if wait.Some? then WaitRelease(wait.value) else Outside
    requires wait.Some? ==> wait.value in s.conds && s.conds[wait.value].lock == l
    ensures l in s.locks && Inv(Clear(s, t, l, wait))
  {
    assert HeldOk(s, t);
    var s' := Clear(s, t, l, wait);
    forall p | p in s'.sems ensures SemOk(s', p) {
      assert SemOk(s, p);
      OtherSem(s, s', t, p);
    }
    forall u | u in s'.threads ensures PcOk(s', u) && SignalOk(s', u) && HeldOk(s', u) {
      ClearThread(s, t, l, wait, u);
    }
    forall k | k in s'.locks ensures LockOk(s', k) { assert LockOk(s, k); }
    forall c | c in s'.conds ensures CondOk(s', c) { assert CondOk(s, c); }
  }

  lemma ClearThread(s: State, t: Tid, l: LockId, wait: Option<CondId>, u: Tid)
    requires Inv(s) && t in s.threads && l in s.threads[t].held && WaitsFor(s.threads[t].pc) == wait && l in s.locks
    requires s.threads[t].pc == if wait.Some? then WaitRelease(wait.value) else Outside
    requires wait.Some? ==> wait.value in s.conds && s.conds[wait.value].lock == l
    requires u in s.threads
    ensures var s' := Clear(s, t, l, wait); PcOk(s', u) && SignalOk(s', u) && HeldOk(s', u)
  {
    assert PcOk(s, u) && SignalOk(s, u) && HeldOk(s, u) && HeldOk(s, t);
  }

  lemma FinishReleaseKeeps(s: State, t: Tid, l: LockId, wait: Option<CondId>)
    requires Inv(s) && t in s.threads && s.threads[t].pc == UpLock(l, wait)
    ensures l in s.locks && CanUp(s, LockSem(l)) && Inv(FinishRelease(s, t, l, wait))
  {
    assert PcOk(s, t) && LockOk(s, l);
    MayUp(s, LockSem(l));
    var s' := FinishRelease(s, t, l, wait);
    FinishReleaseSems(s, t, l, wait);
    forall u | u in s'.threads ensures PcOk(s', u) && SignalOk(s', u) && HeldOk(s', u) {
      FinishReleaseThread(s, t, l, wait, u);
    }
    forall k | k in s'.locks ensures LockOk(s', k) { FinishReleaseLock(s, t, l, wait, k); }
    forall c | c in s'.conds ensures CondOk(s', c) { FinishReleaseCond(s, t, l, wait, c); }
  }

  ghost predicate Releasing(s: State, t: Tid, l: LockId, wait: Option<CondId>) {
    && Inv(s) && t in s.threads && s.threads[t].pc == UpLock(l, wait)
    && l in s.locks && CanUp(s, LockSem(l)) && s.locks[l] == Lock(None, Some(t)) && s.sems[LockSem(l)].value == 0
  }

  lemma FinishReleaseSems(s: State, t: Tid, l: LockId, wait: Option<CondId>)
    requires Releasing(s, t, l, wait)
    ensures SemsOk(FinishRelease(s, t, l, wait))
  {
    var s0 := s.(locks := s.locks[l := s.locks[l].(owner := None)]);
    forall p | p in s0.sems ensures SemOk(s0, p) { assert SemOk(s, p); }
    UpSems(s0, LockSem(l));
    var s1, s' := Up(s0, LockSem(l)), FinishRelease(s, t, l, wait);
    forall p | p in s'.sems ensures SemOk(s', p) {
      assert SemOk(s1, p);
      OtherSem(s1, s', t, p);
    }
  }

  lemma FinishReleaseThread(s: State, t: Tid, l: LockId, wait: Option<CondId>, u: Tid)
    requires Releasing(s, t, l, wait) && u in s.threads
    ensures var s' := FinishRelease(s, t, l, wait); PcOk(s', u) && SignalOk(s', u) && HeldOk(s', u)
  {
    FinishReleasePc(s, t, l, wait, u);
    assert SignalOk(s, u) && HeldOk(s, u);
    if s.sems[LockSem(l)].waiters != [] { Waiter(s, LockSem(l)); }
  }

  lemma FinishReleasePc(s: State, t: Tid, l: LockId, wait: Option<CondId>, u: Tid)
    requires Releasing(s, t, l, wait) && u in s.threads
    ensures PcOk(FinishRelease(s, t, l, wait), u)
  {
    assert PcOk(s, u) && HeldOk(s, u) && PcOk(s, t) && SemOk(s, LockSem(l));
    if s.sems[LockSem(l)].waiters != [] { Waiter(s, LockSem(l)); }
  }

  lemma FinishReleaseLock(s: State, t: Tid, l: LockId, wait: Option<CondId>, k: LockId)
    requires Releasing(s, t, l, wait) && k in s.locks
    ensures LockOk(FinishRelease(s, t, l, wait), k)
  {
    assert LockOk(s, k);
  }

  lemma FinishReleaseCond(s: State, t: Tid, l: LockId, wait: Option<CondId>, c: CondId)
    requires Releasing(s, t, l, wait) && c in s.conds
    ensures CondOk(FinishRelease(s, t, l, wait), c)
  {
    assert CondOk(s, c);
    if s.sems[LockSem(l)].waiters != [] { Waiter(s, LockSem(l)); }
  }

  // ----- condition variables -----

  /** A thread outside waits for nothing, and nobody but it uses its own semaphore. */
  lemma OwnSemaphore(s: State, t: Tid)
    requires Inv(s) && t in s.threads
    ensures WaiterSem(t) in s.sems && forall u <- s.sems[WaiterSem(t)].waiters :: u == t
    ensures !s.threads[t].pc.Blocked? ==> s.sems[WaiterSem(t)].waiters == []
  {
    assert SignalOk(s, t) && SemOk(s, WaiterSem(t));
    var list := s.sems[WaiterSem(t)].waiters;
    forall u | u in list ensures u == t { assert PcOk(s, u); }
    if list != [] { assert list[0] in list; }
  }

  lemma EnqueueKeeps(s: State, t: Tid, c: CondId)
    requires Inv(s) && t in s.threads && s.threads[t].pc.Outside?
    requires c in s.conds && s.conds[c].lock in s.threads[t].held
    ensures Inv(Enqueue(s, t, c))
  {
    var s' := Enqueue(s, t, c);
    OwnSemaphore(s, t);
    assert SignalOk(s, t) && CondOk(s, c);
    forall p | p in s'.sems ensures SemOk(s', p) {
      assert p in s.sems && SemOk(s, p);
      if p != WaiterSem(t) { OtherSem(s, s', t, p); }
    }
    forall u | u in s'.threads ensures PcOk(s', u) && SignalOk(s', u) && HeldOk(s', u) { EnqueueThread(s, t, c, u); }
    forall k | k in s'.locks ensures LockOk(s', k) { assert LockOk(s, k); }
    PushDistinct(t, s.conds[c].queue);
    forall d | d in s'.conds ensures CondOk(s', d) { assert CondOk(s, d); }
  }

  lemma EnqueueThread(s: State, t: Tid, c: CondId, u: Tid)
    requires Inv(s) && t in s.threads && s.threads[t].pc.Outside?
    requires c in s.conds && s.conds[c].lock in s.threads[t].held
    requires u in s.threads
    ensures var s' := Enqueue(s, t, c); PcOk(s', u) && SignalOk(s', u) && HeldOk(s', u)
  {
    OwnSemaphore(s, t);
    assert PcOk(s, u) && SignalOk(s, u) && HeldOk(s, u) && SignalOk(s, t);
  }

  /** The signaller, and the waiter it picks. */
  ghost predicate Picking(s: State, t: Tid, c: CondId) {
    && Inv(s) && t in s.threads && (s.threads[t].pc.Outside? || s.threads[t].pc == Broadcasting(c))
    && c in s.conds && s.conds[c].lock in s.threads[t].held
    && forall w <- s.conds[c].queue :: w in s.threads
  }

  lemma PickedWaits(s: State, t: Tid, c: CondId)
    requires Picking(s, t, c) && s.conds[c].queue != []
    ensures var w := s.conds[c].queue[0];
      w in s.threads && w != t && s.threads[w].signal == Queued && WaitsFor(s.threads[w].pc) == Some(c)
    ensures Distinct(s.conds[c].queue[1..]) && s.conds[c].queue[0] !in s.conds[c].queue[1..]
  {
    assert CondOk(s, c);
    assert s.conds[c].queue[0] in s.conds[c].queue;
  }

  lemma DequeueKeeps(s: State, t: Tid, c: CondId, more: bool)
    requires Picking(s, t, c)
    ensures Inv(Dequeue(s, t, c, more))
  {
    var s' := Dequeue(s, t, c, more);
    assert CondOk(s, c);
    if s.conds[c].queue != [] { PickedWaits(s, t, c); }
    DequeueSems(s, t, c, more);
    forall u | u in s'.threads
      ensures PcOk(s', u) && SignalOk(s', u) && HeldOk(s', u)
    {
      DequeueThread(s, t, c, more, u);
    }
    forall k | k in s'.locks ensures LockOk(s', k) { assert LockOk(s, k); }
    forall d | d in s'.conds ensures CondOk(s', d) { DequeueCond(s, t, c, more, d); }
  }

  lemma DequeueSems(s: State, t: Tid, c: CondId, more: bool)
    requires Picking(s, t, c)
    ensures SemsOk(Dequeue(s, t, c, more))
  {
    var s' := Dequeue(s, t, c, more);
    if s.conds[c].queue != [] { PickedWaits(s, t, c); }
    forall p | p in s'.sems ensures SemOk(s', p) {
      assert SemOk(s, p);
      assert WokenOn(s'.threads, p) == WokenOn(s.threads, p);
    }
  }

  lemma DequeueThread(s: State, t: Tid, c: CondId, more: bool, u: Tid)
    requires Picking(s, t, c) && u in s.threads
    ensures var s' := Dequeue(s, t, c, more); PcOk(s', u) && SignalOk(s', u) && HeldOk(s', u)
  {
    assert PcOk(s, u) && SignalOk(s, u) && HeldOk(s, u);
    if s.conds[c].queue != [] {
      PickedWaits(s, t, c);
      assert SignalOk(s, s.conds[c].queue[0]) && SignalOk(s, t);
      if u != s.conds[c].queue[0] && s.threads[u].signal == Queued { StillQueued(s, c, u); }
    }
  }

  lemma StillQueued(s: State, c: CondId, u: Tid)
    requires c in s.conds && s.conds[c].queue != [] && u != s.conds[c].queue[0]
    ensures u in s.conds[c].queue ==> u in s.conds[c].queue[1..]
  {
    var queue := s.conds[c].queue;
    assert queue == [queue[0]] + queue[1..];
  }

  lemma DequeueCond(s: State, t: Tid, c: CondId, more: bool, d: CondId)
    requires Picking(s, t, c) && d in s.conds
    ensures CondOk(Dequeue(s, t, c, more), d)
  {
    assert CondOk(s, d) && SignalOk(s, t);
    if s.conds[c].queue != [] {
      PickedWaits(s, t, c);
      assert forall x <- s.conds[c].queue[1..] :: x in s.conds[c].queue;
    }
  }

  ghost predicate Signalling(s: State, t: Tid, c: CondId, w: Tid, more: bool) {
    && Inv(s) && t in s.threads && s.threads[t].pc == SignalUp(c, w, more)
    && w in s.threads && w != t && s.threads[w].signal == InFlight(t) && CanUp(s, WaiterSem(w))
    && (forall u <- s.sems[WaiterSem(w)].waiters :: u == w) && s.sems[WaiterSem(w)].value == 0
  }

  lemma FinishSignalKeeps(s: State, t: Tid, c: CondId, w: Tid, more: bool)
    requires Inv(s) && t in s.threads && s.threads[t].pc == SignalUp(c, w, more)
    ensures w in s.threads && CanUp(s, WaiterSem(w)) && Inv(FinishSignal(s, t, c, w, more))
  {
    assert PcOk(s, t) && SignalOk(s, t) && SignalOk(s, w);
    OwnSemaphore(s, w);
    MayUp(s, WaiterSem(w));
    var s' := FinishSignal(s, t, c, w, more);
    FinishSignalSems(s, t, c, w, more);
    forall u | u in s'.threads ensures PcOk(s', u) && SignalOk(s', u) && HeldOk(s', u) {
      FinishSignalPc(s, t, c, w, more, u);
      FinishSignalThread(s, t, c, w, more, u);
    }
    forall k | k in s'.locks ensures LockOk(s', k) { assert LockOk(s, k); }
    forall d | d in s'.conds ensures CondOk(s', d) { FinishSignalCond(s, t, c, w, more, d); }
  }

  lemma FinishSignalSems(s: State, t: Tid, c: CondId, w: Tid, more: bool)
    requires Signalling(s, t, c, w, more)
    ensures SemsOk(FinishSignal(s, t, c, w, more))
  {
    var s0 := WithThread(s, w, s.threads[w].(signal := Delivered));
    forall p | p in s0.sems ensures SemOk(s0, p) {
      assert SemOk(s, p);
      assert WokenOn(s0.threads, p) == WokenOn(s.threads, p);
    }
    UpSems(s0, WaiterSem(w));
    var s1, s' := Up(s0, WaiterSem(w)), FinishSignal(s, t, c, w, more);
    forall p | p in s'.sems ensures SemOk(s', p) {
      assert SemOk(s1, p);
      OtherSem(s1, s', t, p);
    }
  }

  lemma FinishSignalPc(s: State, t: Tid, c: CondId, w: Tid, more: bool, u: Tid)
    requires Signalling(s, t, c, w, more) && u in s.threads
    ensures PcOk(FinishSignal(s, t, c, w, more), u)
  {
    assert PcOk(s, u) && PcOk(s, t);
    if s.sems[WaiterSem(w)].waiters != [] { Waiter(s, WaiterSem(w)); }
  }

  lemma FinishSignalThread(s: State, t: Tid, c: CondId, w: Tid, more: bool, u: Tid)
    requires Signalling(s, t, c, w, more) && u in s.threads
    ensures var s' := FinishSignal(s, t, c, w, more); SignalOk(s', u) && HeldOk(s', u)
  {
    assert SignalOk(s, u) && HeldOk(s, u);
    if s.sems[WaiterSem(w)].waiters != [] { Waiter(s, WaiterSem(w)); }
  }

  lemma FinishSignalCond(s: State, t: Tid, c: CondId, w: Tid, more: bool, d: CondId)
    requires Signalling(s, t, c, w, more) && d in s.conds
    ensures CondOk(FinishSignal(s, t, c, w, more), d)
  {
    assert CondOk(s, d) && SignalOk(s, t);
    if s.sems[WaiterSem(w)].waiters != [] { Waiter(s, WaiterSem(w)); }
  }
}
