/**
 Semaphores, locks and condition variables over whole runs: no wakeup and no signal is lost, and a lock has
 one holder.
 */
module SynchResults {
  import opened Lists
  import opened Synch
  import opened SynchSteps

  // ----- runs -----

  /** `sema_try_down`: a down that does not wait. */
  function TryDown(s: State, t: Tid, q: Sem, k: Cont): State
    requires t in s.threads && q in s.sems && Known(s, k)
  {
    if s.sems[q].value > 0 then Down(s, t, q, k) else s
  }

  ghost function Next(s: State, e: Step): State
    requires Inv(s) && Enabled(s, e)
  {
    match e
    case DownStep(t, n) => Down(s, t, UserSem(n), Return)
    case TryDownStep(t, n) => TryDown(s, t, UserSem(n), Return)
    case UpStep(n) =>
      MayUp(s, UserSem(n));
      Up(s, UserSem(n))
    case AcquireStep(t, l) =>
      NotOwner(s, t, l);
      Down(s, t, LockSem(l), TakeLock(l))
    case TryAcquireStep(t, l) =>
      NotOwner(s, t, l);
      TryDown(s, t, LockSem(l), TakeLock(l))
    case ReleaseStep(t, l) => Clear(s, t, l, None)
    case WaitStep(t, c) => Enqueue(s, t, c)
    case SignalStep(t, c) =>
      Picks(s, t, c);
      Dequeue(s, t, c, false)
    case BroadcastStep(t, c) => At(s, t, Broadcasting(c))
    case GoStep(t) => Go(s, t)
  }

  /** The next statement of a thread inside one of the functions. */
  ghost function Go(s: State, t: Tid): State
    requires Inv(s) && Enabled(s, GoStep(t))
  {
    assert PcOk(s, t);
    match s.threads[t].pc
    case Calling(q, k) => Down(s, t, q, k)
    case Woken(q, k) => Down(s, t, q, k)
    case SetHolder(l) => Taken(s, t, l)
    case WaitRelease(c) =>
      assert HeldOk(s, t);
      Clear(s, t, s.conds[c].lock, Some(c))
    case UpLock(l, wait) =>
      FinishReleaseKeeps(s, t, l, wait);
      FinishRelease(s, t, l, wait)
    case SignalUp(c, w, more) =>
      FinishSignalKeeps(s, t, c, w, more);
      FinishSignal(s, t, c, w, more)
    case Broadcasting(c) =>
      assert CondOk(s, c);
      Dequeue(s, t, c, true)
  }

  /** A thread outside that does not hold a lock is not half way through taking or giving it up either. */
  lemma NotOwner(s: State, t: Tid, l: LockId)
    requires Inv(s) && IsOutside(s, t) && l in s.locks && s.locks[l].holder != Some(t)
    ensures ContOk(s, t, LockSem(l), TakeLock(l))
  {
    assert LockOk(s, l);
  }

  lemma Picks(s: State, t: Tid, c: CondId)
    requires Inv(s) && IsOutside(s, t) && c in s.conds && HoldsLockOf(s, t, c)
    ensures Picking(s, t, c)
  {
    assert CondOk(s, c) && LockOk(s, s.conds[c].lock);
  }

  lemma StepKeeps(s: State, e: Step)
    requires Inv(s) && Enabled(s, e)
    ensures Inv(Next(s, e))
  {
    match e
    case DownStep(t, n) => DownKeeps(s, t, UserSem(n), Return);
    case TryDownStep(t, n) => DownKeeps(s, t, UserSem(n), Return);
    case UpStep(n) => UpStepKeeps(s, n);
    case AcquireStep(t, l) =>
      NotOwner(s, t, l);
      DownKeeps(s, t, LockSem(l), TakeLock(l));
    case TryAcquireStep(t, l) =>
      NotOwner(s, t, l);
      DownKeeps(s, t, LockSem(l), TakeLock(l));
    case ReleaseStep(t, l) =>
      assert LockOk(s, l);
      ClearKeeps(s, t, l, None);
    case WaitStep(t, c) =>
      Picks(s, t, c);
      EnqueueKeeps(s, t, c);
    case SignalStep(t, c) =>
      Picks(s, t, c);
      DequeueKeeps(s, t, c, false);
    case BroadcastStep(t, c) =>
      Picks(s, t, c);
      BroadcastKeeps(s, t, c);
    case GoStep(t) => GoKeeps(s, t);
  }

  lemma BroadcastKeeps(s: State, t: Tid, c: CondId)
    requires Picking(s, t, c) && IsOutside(s, t)
    ensures Inv(At(s, t, Broadcasting(c)))
  {
    var s' := At(s, t, Broadcasting(c));
    forall p | p in s'.sems ensures SemOk(s', p) {
      assert SemOk(s, p);
      OtherSem(s, s', t, p);
    }
    forall u | u in s'.threads ensures PcOk(s', u) && SignalOk(s', u) && HeldOk(s', u) {
      assert PcOk(s, u) && SignalOk(s, u) && HeldOk(s, u);
    }
    forall k | k in s'.locks ensures LockOk(s', k) { assert LockOk(s, k); }
    forall d | d in s'.conds ensures CondOk(s', d) { assert CondOk(s, d) && SignalOk(s, t); }
  }

  lemma GoKeeps(s: State, t: Tid)
    requires Inv(s) && Enabled(s, GoStep(t))
    ensures Inv(Go(s, t))
  {
    assert PcOk(s, t);
    match s.threads[t].pc
    case Calling(q, k) => DownKeeps(s, t, q, k);
    case Woken(q, k) => DownKeeps(s, t, q, k);
    case SetHolder(l) => SetHolderKeeps(s, t, l);
    case WaitRelease(c) => ClearKeeps(s, t, s.conds[c].lock, Some(c));
    case UpLock(l, wait) => FinishReleaseKeeps(s, t, l, wait);
    case SignalUp(c, w, more) => FinishSignalKeeps(s, t, c, w, more);
    case Broadcasting(c) =>
      assert CondOk(s, c);
      DequeueKeeps(s, t, c, true);
  }

  ghost predicate IsRun(run: seq<State>, steps: seq<Step>) {
    && |run| == |steps| + 1 && Inv(run[0])
    && forall k {:trigger steps[k]} :: 0 <= k < |steps| ==>
         Enabled(run[k], steps[k]) && (Inv(run[k]) ==> run[k + 1] == Next(run[k], steps[k]))
  }

  lemma {:induction false} RunKeeps(run: seq<State>, steps: seq<Step>, k: nat)
    requires IsRun(run, steps) && k < |run|
    ensures Inv(run[k])
  {
    if k > 0 {
      RunKeeps(run, steps, k - 1);
      assert Enabled(run[k - 1], steps[k - 1]);
      StepKeeps(run[k - 1], steps[k - 1]);
    }
  }

  /** Freshly initialised semaphores, locks and conditions, and threads outside all of them. */
  function Boot(threads: set<Tid>, users: map<nat, nat>, locks: set<LockId>, conds: map<CondId, LockId>): State {
    State(
      map q | q in AllSems(threads, users.Keys, locks) ::
        var value := InitialValue(q, users);
        Sema(value, [], value, 0, 0),
      map t | t in threads :: Thread(Outside, {}, NotWaiting),
      map l | l in locks :: Lock(None, None),
      map c | c in conds :: Condition(conds[c], []))
  }

  function InitialValue(q: Sem, users: map<nat, nat>): nat {
    match q
    case UserSem(n) => if n in users then users[n] else 0
    case LockSem(_) => 1
    case WaiterSem(_) => 0
  }

  function AllSems(threads: set<Tid>, users: set<nat>, locks: set<LockId>): set<Sem> {
    (set n | n in users :: UserSem(n)) + (set l | l in locks :: LockSem(l)) + (set t | t in threads :: WaiterSem(t))
  }

  lemma BootGood(threads: set<Tid>, users: map<nat, nat>, locks: set<LockId>, conds: map<CondId, LockId>)
    requires forall c <- conds :: conds[c] in locks
    ensures Inv(Boot(threads, users, locks, conds))
  {
  }

  // ----- what the invariant means -----

  /** If a thread sleeps on a semaphore that has a unit to give, some thread has been woken to take it. */
  lemma NoLostWakeup(s: State, q: Sem)
    requires Inv(s) && q in s.sems && s.sems[q].waiters != [] && s.sems[q].value > 0
    ensures exists t :: t in s.threads && s.threads[t].pc.Woken? && s.threads[t].pc.s == q
  {
    assert SemOk(s, q);
    assert WokenOn(s.threads, q) != {};
    var t :| t in WokenOn(s.threads, q);
    assert s.threads[t].pc.Woken?;
  }

  /** At most one thread is between `lock_acquire` and `lock_release`. */
  lemma MutualExclusion(s: State, t: Tid, u: Tid, l: LockId)
    requires Inv(s) && t in s.threads && u in s.threads && l in s.threads[t].held && l in s.threads[u].held
    ensures t == u && l in s.locks && s.locks[l].holder == Some(t)
  {
    assert HeldOk(s, t) && HeldOk(s, u);
  }

  /** A lock that nobody is inside is not left alone while threads wait for it: one of them is on its way. */
  lemma FreeLockIsTaken(s: State, l: LockId)
    requires Inv(s) && l in s.locks && s.locks[l].owner == None
    ensures LockSem(l) in s.sems && s.sems[LockSem(l)].value == 1
    ensures s.sems[LockSem(l)].waiters != [] ==>
      exists t :: t in s.threads && s.threads[t].pc.Woken? && s.threads[t].pc.s == LockSem(l)
  {
    assert LockOk(s, l);
    if s.sems[LockSem(l)].waiters != [] { NoLostWakeup(s, LockSem(l)); }
  }

  /** A signalled thread does not sleep on its semaphore, and its down goes through at once, however early the
      signal came after `cond_wait` let go of the lock. */
  lemma SignalNotLost(s: State, w: Tid)
    requires Inv(s) && w in s.threads && s.threads[w].signal == Delivered
    ensures !(s.threads[w].pc.Blocked? && s.threads[w].pc.s == WaiterSem(w))
    ensures forall k :: s.threads[w].pc in {Calling(WaiterSem(w), k), Woken(WaiterSem(w), k)} ==>
      Enabled(s, GoStep(w)) && !Go(s, w).threads[w].pc.Blocked?
  {
    assert SignalOk(s, w) && PcOk(s, w) && SemOk(s, WaiterSem(w));
    if s.threads[w].pc.Blocked? && s.threads[w].pc.s == WaiterSem(w) {
      NoLostWakeup(s, WaiterSem(w));
      var t :| t in s.threads && s.threads[t].pc.Woken? && s.threads[t].pc.s == WaiterSem(w);
      WakerIsSelf(s, w, t);
    }
  }

  lemma WakerIsSelf(s: State, w: Tid, t: Tid)
    requires Inv(s) && t in s.threads && s.threads[t].pc.Woken? && s.threads[t].pc.s == WaiterSem(w)
    ensures t == w
  {
    assert PcOk(s, t);
  }

  /** What any step does to the queue of a condition: nothing, a waiter joins at the back, or the first one
      leaves with a signal under way. */
  lemma QueueNext(s: State, e: Step, c: CondId)
    requires Inv(s) && Enabled(s, e) && c in s.conds
    ensures c in Next(s, e).conds
    ensures var queue, queue' := s.conds[c].queue, Next(s, e).conds[c].queue;
      || queue' == queue
      || (e.WaitStep? && e.c == c && queue' == queue + [e.t])
      || (queue != [] && queue' == queue[1..]
          && queue[0] in Next(s, e).threads && Next(s, e).threads[queue[0]].signal.InFlight?)
  {
    match e
    case GoStep(t) => GoQueue(s, t, c);
    case SignalStep(t, d) =>
      Picks(s, t, d);
      if s.conds[d].queue != [] { PickedWaits(s, t, d); }
    case UpStep(n) => assert SemOk(s, UserSem(n));
    case _ =>
  }

  lemma GoQueue(s: State, t: Tid, c: CondId)
    requires Inv(s) && Enabled(s, GoStep(t)) && c in s.conds
    ensures c in Go(s, t).conds
    ensures var queue, queue' := s.conds[c].queue, Go(s, t).conds[c].queue;
      || queue' == queue
      || (queue != [] && queue' == queue[1..]
          && queue[0] in Go(s, t).threads && Go(s, t).threads[queue[0]].signal.InFlight?)
  {
    assert PcOk(s, t);
    match s.threads[t].pc
    case UpLock(l, wait) => FinishReleaseKeeps(s, t, l, wait);
    case SignalUp(d, x, more) => FinishSignalKeeps(s, t, d, x, more);
    case Broadcasting(d) =>
      assert CondOk(s, d);
      if s.conds[d].queue != [] { PickedWaits(s, t, d); }
    case _ =>
  }

  /** Signals come in the order of waiting: as long as w has not been signalled, a thread that began to wait
      after it has not been either, and is still behind it. */
  lemma {:induction false} NotOvertaken(run: seq<State>, steps: seq<Step>, k: nat, m: nat, c: CondId, w: Tid, u: Tid)
    requires IsRun(run, steps) && k <= m < |run|
    requires forall j {:trigger run[j]} :: k <= j <= m ==> c in run[j].conds && w in run[j].conds[c].queue
    requires Before(run[k].conds[c].queue, w, u)
    ensures Before(run[m].conds[c].queue, w, u)
  {
    if k < m {
      NotOvertaken(run, steps, k, m - 1, c, w, u);
      RunKeeps(run, steps, m - 1);
      assert Enabled(run[m - 1], steps[m - 1]);
      QueueNext(run[m - 1], steps[m - 1], c);
      assert CondOk(run[m - 1], c);
      StillBefore(run[m - 1].conds[c].queue, run[m].conds[c].queue, w, u);
    }
  }

  lemma StillBefore(queue: seq<Tid>, queue': seq<Tid>, w: Tid, u: Tid)
    requires Distinct(queue) && Before(queue, w, u) && w in queue'
    requires queue <= queue' || (queue != [] && queue' == queue[1..])
    ensures Before(queue', w, u)
  {
    var i, j :| 0 <= i < j < |queue| && queue[i] == w && queue[j] == u;
    if queue <= queue' {
      assert queue'[i] == w && queue'[j] == u;
    } else {
      var k :| 0 <= k < |queue'| && queue'[k] == w;
      assert queue[k + 1] == w;
      assert queue'[i - 1] == w && queue'[j - 1] == u;
    }
  }

  /** How a waiter's signal can change: it is queued by its own wait, picked by a signaller holding the lock,
      delivered by that signaller, and consumed by its own down. */
  lemma SignalNext(s: State, e: Step, w: Tid)
    requires Inv(s) && Enabled(s, e) && w in s.threads && w in Next(s, e).threads
    ensures var old', new' := s.threads[w].signal, Next(s, e).threads[w].signal;
      old' == new' ||
      match old'
      case NotWaiting => new' == Queued && e.WaitStep? && e.t == w
      case Queued => new'.InFlight? && (e == GoStep(new'.from) || (e.SignalStep? && e.t == new'.from))
      case InFlight(from) => new' == Delivered && e == GoStep(from)
      case Delivered => new' == NotWaiting && e == GoStep(w)
  {
    assert PcOk(s, w) && SignalOk(s, w);
    match e
    case GoStep(t) => GoSignal(s, t, w);
    case SignalStep(t, c) =>
      Picks(s, t, c);
      if s.conds[c].queue != [] { PickedWaits(s, t, c); }
    case UpStep(n) => assert SemOk(s, UserSem(n));
    case WaitStep(t, c) => assert SignalOk(s, t);
    case _ =>
  }

  lemma GoSignal(s: State, t: Tid, w: Tid)
    requires Inv(s) && Enabled(s, GoStep(t)) && w in s.threads && w in Go(s, t).threads
    ensures var old', new' := s.threads[w].signal, Go(s, t).threads[w].signal;
      old' == new' ||
      match old'
      case NotWaiting => false
      case Queued => new' == InFlight(t)
      case InFlight(from) => new' == Delivered && t == from
      case Delivered => new' == NotWaiting && t == w
  {
    assert PcOk(s, t) && SignalOk(s, t);
    match s.threads[t].pc
    case UpLock(l, wait) => FinishReleaseKeeps(s, t, l, wait);
    case SignalUp(c, x, more) => SignalUpSignal(s, t, c, x, more, w);
    case Broadcasting(c) =>
      assert CondOk(s, c);
      if s.conds[c].queue != [] { PickedWaits(s, t, c); }
    case Calling(q, k) =>
    case Woken(q, k) =>
    case SetHolder(l) =>
    case WaitRelease(c) =>
  }

  lemma SignalUpSignal(s: State, t: Tid, c: CondId, x: Tid, more: bool, w: Tid)
    requires Inv(s) && t in s.threads && s.threads[t].pc == SignalUp(c, x, more) && w in s.threads
    ensures x in s.threads && CanUp(s, WaiterSem(x))
    ensures FinishSignal(s, t, c, x, more).threads[w].signal == if w == x then Delivered else s.threads[w].signal
    ensures s.threads[x].signal == InFlight(t)
  {
    FinishSignalKeeps(s, t, c, x, more);
    assert PcOk(s, t) && SignalOk(s, x);
  }
}
