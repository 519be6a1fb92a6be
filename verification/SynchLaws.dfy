/**
 Laws of semaphores, locks and condition variables over every step and run: what a step does to each semaphore and
 to each thread, and what a call has done when it comes back.
 */
module SynchLaws {
  import opened Lists
  import opened Synch
  import opened SynchSteps
  import opened SynchResults

  /** Thread t takes the step.  An up may also come from an interrupt handler, and is nobody's. */
  predicate By(e: Step, t: Tid) { !e.UpStep? && e.t == t }

  // ----- semaphores -----

  /** The semaphore that is downed in a step, and the one that is upped. */
  ghost function Downed(s: State, e: Step): Option<Sem> {
    match e
    case DownStep(_, n) => Some(UserSem(n))
    case TryDownStep(_, n) => Some(UserSem(n))
    case AcquireStep(_, l) => Some(LockSem(l))
    case TryAcquireStep(_, l) => Some(LockSem(l))
    case GoStep(t) =>
      if t in s.threads && (s.threads[t].pc.Calling? || s.threads[t].pc.Woken?) then Some(s.threads[t].pc.s) else None
    case _ => None
  }

  ghost function Upped(s: State, e: Step): Option<Sem> {
    match e
    case UpStep(n) => Some(UserSem(n))
    case GoStep(t) =>
      if t !in s.threads then None
      else if s.threads[t].pc.UpLock? then Some(LockSem(s.threads[t].pc.l))
      else if s.threads[t].pc.SignalUp? then Some(WaiterSem(s.threads[t].pc.w))
      else None
    case _ => None
  }

  /** A down takes a unit if there is one, and otherwise waits at the back unless it only tries; an up adds a unit and
      lets the first waiter go; a wait starts its own semaphore afresh; nothing else touches a semaphore. */
  ghost predicate SemaNext(s: State, e: Step, r: Sema, r': Sema, q: Sem) {
    if Upped(s, e) == Some(q) then
      && r' == Sema(r.value + 1, r'.waiters, r.initial, r.ups + 1, r.downs)
      && (if r.waiters == [] then r'.waiters == [] else r.waiters == [r.waiters[0]] + r'.waiters)
    else if Downed(s, e) == Some(q) then
      if r.value > 0 then r' == Sema(r.value - 1, r.waiters, r.initial, r.ups, r.downs + 1)
      else r' == r.(waiters := if e.TryDownStep? || e.TryAcquireStep? then r.waiters else r.waiters + [e.t])
    else if e.WaitStep? && q == WaiterSem(e.t) then r' == Sema(0, [], 0, 0, 0)
    else r' == r
  }

  lemma SemNext(s: State, e: Step, q: Sem)
    requires Inv(s) && Enabled(s, e) && q in s.sems
    ensures q in Next(s, e).sems && SemaNext(s, e, s.sems[q], Next(s, e).sems[q], q)
  {
    match e
    case AcquireStep(t, l) => NotOwner(s, t, l);
    case TryAcquireStep(t, l) => NotOwner(s, t, l);
    case UpStep(n) => MayUp(s, UserSem(n));
    case SignalStep(t, c) => Picks(s, t, c);
    case GoStep(t) => GoSem(s, t, q);
    case _ =>
  }

  lemma GoSem(s: State, t: Tid, q: Sem)
    requires Inv(s) && Enabled(s, GoStep(t)) && q in s.sems
    ensures q in Go(s, t).sems && SemaNext(s, GoStep(t), s.sems[q], Go(s, t).sems[q], q)
  {
    assert PcOk(s, t);
    match s.threads[t].pc
    case UpLock(l, wait) => FinishReleaseKeeps(s, t, l, wait);
    case SignalUp(c, w, more) => FinishSignalKeeps(s, t, c, w, more);
    case Broadcasting(c) => assert CondOk(s, c);
    case WaitRelease(c) => assert HeldOk(s, t);
    case _ =>
  }

  // ----- threads -----

  /** Where a thread goes on after a completed down: back to its caller, on to be the lock's holder, or, in a wait, to
      acquire the condition's lock again. */
  ghost predicate GoesOn(s: State, k: Cont, pc: Pc) {
    match k
    case Return => pc == Outside
    case TakeLock(l) => pc == SetHolder(l)
    case Reacquire(c) => c in s.conds && var l := s.conds[c].lock; pc == Calling(LockSem(l), TakeLock(l))
  }

  ghost predicate AfterDown(s: State, q: Sem, k: Cont, pc: Pc) {
    q in s.sems && if s.sems[q].value > 0 then GoesOn(s, k, pc) else pc == Blocked(q, k)
  }

  /** The signal's target is the longest waiter. */
  ghost predicate Signals(s: State, c: CondId, more: bool, pc: Pc) {
    c in s.conds && if s.conds[c].queue == [] then pc == Outside else pc == SignalUp(c, s.conds[c].queue[0], more)
  }

  /** Where t's own step leads it. */
  ghost predicate OwnNext(s: State, e: Step, t: Tid, pc: Pc, pc': Pc) {
    match e
    case UpStep(_) => false
    case DownStep(_, n) => AfterDown(s, UserSem(n), Return, pc')
    case TryDownStep(_, _) => pc' == Outside
    case AcquireStep(_, l) => AfterDown(s, LockSem(l), TakeLock(l), pc')
    case TryAcquireStep(_, l) => l in s.locks && pc' == if s.locks[l].owner == None then SetHolder(l) else Outside
    case ReleaseStep(_, l) => pc' == UpLock(l, None)
    case WaitStep(_, c) => pc' == WaitRelease(c)
    case SignalStep(_, c) => Signals(s, c, false, pc')
    case BroadcastStep(_, c) => pc' == Broadcasting(c)
    case GoStep(_) =>
      match pc
      case Outside => false
      case Blocked(_, _) => false
      case Calling(q, k) => AfterDown(s, q, k, pc')
      case Woken(q, k) => AfterDown(s, q, k, pc')
      case SetHolder(_) => pc' == Outside
      case WaitRelease(c) => c in s.conds && pc' == UpLock(s.conds[c].lock, Some(c))
      case UpLock(_, wait) => pc' == if wait.Some? then Calling(WaiterSem(t), Reacquire(wait.value)) else Outside
      case SignalUp(c, _, more) => pc' == if more then Broadcasting(c) else Outside
      case Broadcasting(c) => Signals(s, c, true, pc')
  }

  /** Without a step of its own a thread can only be woken, by an up of what it sleeps on when it is the first there. */
  ghost predicate OthersNext(s: State, e: Step, t: Tid, pc: Pc, pc': Pc) {
    if pc.Blocked? && Upped(s, e) == Some(pc.s) && IsFirst(s, pc.s, t) then pc' == Woken(pc.s, pc.k) else pc' == pc
  }

  ghost predicate IsFirst(s: State, q: Sem, t: Tid) {
    q in s.sems && s.sems[q].waiters != [] && s.sems[q].waiters[0] == t
  }

  /** A lock is held from the assignment of the holder until it is cleared. */
  ghost predicate HeldNext(s: State, e: Step, t: Tid, r: Thread, held: set<LockId>) {
    if e == GoStep(t) && r.pc.SetHolder? then held == r.held + {r.pc.l}
    else if e == GoStep(t) && r.pc.WaitRelease? then r.pc.c in s.conds && held == r.held - {s.conds[r.pc.c].lock}
    else if e.ReleaseStep? && e.t == t then held == r.held - {e.l}
    else held == r.held
  }

  ghost predicate ThreadNext(s: State, e: Step, t: Tid, r: Thread, r': Thread) {
    && (if By(e, t) then OwnNext(s, e, t, r.pc, r'.pc) else OthersNext(s, e, t, r.pc, r'.pc))
    && HeldNext(s, e, t, r, r'.held)
  }

  lemma StepThread(s: State, e: Step, t: Tid)
    requires Inv(s) && Enabled(s, e) && t in s.threads
    ensures t in Next(s, e).threads && ThreadNext(s, e, t, s.threads[t], Next(s, e).threads[t])
  {
    match e
    case AcquireStep(u, l) => NotOwner(s, u, l);
    case TryAcquireStep(u, l) =>
      NotOwner(s, u, l);
      assert LockOk(s, l);
    case UpStep(n) => UpThread(s, e, UserSem(n), t);
    case SignalStep(u, c) =>
      Picks(s, u, c);
      if s.conds[c].queue != [] { PickedWaits(s, u, c); }
    case GoStep(u) => GoThread(s, u, t);
    case _ =>
  }

  lemma UpThread(s: State, e: Step, q: Sem, t: Tid)
    requires Inv(s) && q in s.sems && t in s.threads && Upped(s, e) == Some(q)
    ensures CanUp(s, q) && t in Up(s, q).threads && Up(s, q).threads[t].held == s.threads[t].held
    ensures OthersNext(s, e, t, s.threads[t].pc, Up(s, q).threads[t].pc)
  {
    MayUp(s, q);
    assert SemOk(s, q) && PcOk(s, t);
    if s.sems[q].waiters != [] { Waiter(s, q); }
  }

  lemma GoThread(s: State, u: Tid, t: Tid)
    requires Inv(s) && Enabled(s, GoStep(u)) && t in s.threads
    ensures t in Go(s, u).threads && ThreadNext(s, GoStep(u), t, s.threads[t], Go(s, u).threads[t])
  {
    assert PcOk(s, u);
    match s.threads[u].pc
    case UpLock(l, wait) => GoUpThread(s, u, t);
    case SignalUp(c, w, more) => GoUpThread(s, u, t);
    case Broadcasting(c) =>
      assert CondOk(s, c);
      if s.conds[c].queue != [] { PickedWaits(s, u, c); }
    case WaitRelease(c) => assert HeldOk(s, u);
    case _ =>
  }

  lemma GoUpThread(s: State, u: Tid, t: Tid)
    requires Inv(s) && Enabled(s, GoStep(u)) && t in s.threads && (s.threads[u].pc.UpLock? || s.threads[u].pc.SignalUp?)
    ensures t in Go(s, u).threads && ThreadNext(s, GoStep(u), t, s.threads[t], Go(s, u).threads[t])
  {
    match s.threads[u].pc
    case UpLock(l, wait) =>
      FinishReleaseKeeps(s, u, l, wait);
      UpThread(s, GoStep(u), LockSem(l), t);
    case SignalUp(c, w, more) =>
      FinishSignalKeeps(s, u, c, w, more);
      UpThread(s, GoStep(u), WaiterSem(w), t);
  }

  /** Conditions and locks stay, and a condition keeps its lock. */
  lemma CondNext(s: State, e: Step, c: CondId)
    requires Inv(s) && Enabled(s, e) && c in s.conds
    ensures c in Next(s, e).conds && Next(s, e).conds[c].lock == s.conds[c].lock
  {
    match e
    case AcquireStep(u, l) => NotOwner(s, u, l);
    case TryAcquireStep(u, l) => NotOwner(s, u, l);
    case UpStep(n) => MayUp(s, UserSem(n));
    case SignalStep(u, d) => Picks(s, u, d);
    case GoStep(u) => GoCond(s, u, c);
    case _ =>
  }

  lemma GoCond(s: State, u: Tid, c: CondId)
    requires Inv(s) && Enabled(s, GoStep(u)) && c in s.conds
    ensures c in Go(s, u).conds && Go(s, u).conds[c].lock == s.conds[c].lock
  {
    assert PcOk(s, u);
    match s.threads[u].pc
    case UpLock(l, wait) => FinishReleaseKeeps(s, u, l, wait);
    case SignalUp(d, w, more) => FinishSignalKeeps(s, u, d, w, more);
    case Broadcasting(d) => assert CondOk(s, d);
    case WaitRelease(d) => assert HeldOk(s, u);
    case _ =>
  }

  // ----- lock_acquire and cond_wait come back with the lock -----

  /** On the way from needing lock l to holding it. */
  predicate Acquiring(pc: Pc, l: LockId) {
    match pc
    case Calling(q, k) => q == LockSem(l) && k == TakeLock(l)
    case Blocked(q, k) => q == LockSem(l) && k == TakeLock(l)
    case Woken(q, k) => q == LockSem(l) && k == TakeLock(l)
    case SetHolder(m) => m == l
    case _ => false
  }

  /** t is waiting for condition c, or acquiring its lock again. */
  ghost predicate InWait(s: State, t: Tid, c: CondId) {
    && t in s.threads && c in s.conds
    && (WaitsFor(s.threads[t].pc) == Some(c) || Acquiring(s.threads[t].pc, s.conds[c].lock))
  }

  lemma AcquiringNext(s: State, e: Step, t: Tid, l: LockId)
    requires Inv(s) && Enabled(s, e) && t in s.threads && Acquiring(s.threads[t].pc, l)
    ensures t in Next(s, e).threads
    ensures var r := Next(s, e).threads[t];
      Acquiring(r.pc, l) || (r.pc.Outside? && l in r.held)
  {
    StepThread(s, e, t);
  }

  lemma InWaitNext(s: State, e: Step, t: Tid, c: CondId)
    requires Inv(s) && Enabled(s, e) && InWait(s, t, c)
    ensures t in Next(s, e).threads && c in Next(s, e).conds && Next(s, e).conds[c].lock == s.conds[c].lock
    ensures InWait(Next(s, e), t, c)
      || (Next(s, e).threads[t].pc.Outside? && s.conds[c].lock in Next(s, e).threads[t].held)
  {
    CondNext(s, e, c);
    if Acquiring(s.threads[t].pc, s.conds[c].lock) {
      AcquiringNext(s, e, t, s.conds[c].lock);
    } else {
      assert PcOk(s, t);
      StepThread(s, e, t);
    }
  }

  /** In none of the states after k and before m has t come back from the call it makes in step k. */
  ghost predicate Inside(run: seq<State>, k: nat, m: nat, t: Tid)
    requires m <= |run|
  {
    forall j {:trigger run[j]} :: k < j < m ==> !IsOutside(run[j], t)
  }

  lemma {:induction false} WaitsUntil(run: seq<State>, steps: seq<Step>, k: nat, m: nat, t: Tid, c: CondId)
    requires IsRun(run, steps) && k < m < |run| && steps[k] == WaitStep(t, c) && Inside(run, k, m, t)
    ensures Inv(run[k]) && Enabled(run[k], steps[k])
    ensures t in run[m].threads && c in run[m].conds && run[m].conds[c].lock == run[k].conds[c].lock
    ensures InWait(run[m], t, c)
      || (run[m].threads[t].pc.Outside? && run[k].conds[c].lock in run[m].threads[t].held)
  {
    RunKeeps(run, steps, k);
    RunKeeps(run, steps, m - 1);
    assert Enabled(run[k], steps[k]) && Enabled(run[m - 1], steps[m - 1]);
    if k + 1 == m {
      StepThread(run[k], steps[k], t);
      CondNext(run[k], steps[k], c);
    } else {
      WaitsUntil(run, steps, k, m - 1, t, c);
      assert !IsOutside(run[m - 1], t);
      InWaitNext(run[m - 1], steps[m - 1], t, c);
    }
  }

  /** `cond_wait` comes back holding the lock, and only after the condition has been signalled to the caller. */
  lemma WaitReturnsHolding(run: seq<State>, steps: seq<Step>, k: nat, m: nat, t: Tid, c: CondId)
    requires IsRun(run, steps) && k < m < |run| && steps[k] == WaitStep(t, c) && Inside(run, k, m, t)
    requires IsOutside(run[m], t)
    ensures c in run[k].conds && run[k].conds[c].lock in run[m].threads[t].held
    ensures exists j :: k < j < m && t in run[j].threads && run[j].threads[t].signal == Delivered
  {
    WaitsUntil(run, steps, k, m, t, c);
    Signalled(run, steps, k, m, t, c);
    RunKeeps(run, steps, m);
    assert SignalOk(run[m], t);
  }

  /** Until the signal is delivered the wait is not over. */
  lemma {:induction false} Signalled(run: seq<State>, steps: seq<Step>, k: nat, m: nat, t: Tid, c: CondId)
    requires IsRun(run, steps) && k < m < |run| && steps[k] == WaitStep(t, c) && Inside(run, k, m, t)
    ensures t in run[m].threads
    ensures run[m].threads[t].signal == NotWaiting ==>
      exists j :: k < j < m && t in run[j].threads && run[j].threads[t].signal == Delivered
  {
    RunKeeps(run, steps, m - 1);
    WaitsUntil(run, steps, k, m, t, c);
    assert Enabled(run[m - 1], steps[m - 1]);
    if k + 1 == m {
      assert WaitsFor(run[m].threads[t].pc) == Some(c);
      RunKeeps(run, steps, m);
      assert SignalOk(run[m], t);
    } else {
      Signalled(run, steps, k, m - 1, t, c);
      WaitsUntil(run, steps, k, m - 1, t, c);
      assert !IsOutside(run[m - 1], t);
      SignalNext(run[m - 1], steps[m - 1], t);
    }
  }

  lemma {:induction false} AcquiresUntil(run: seq<State>, steps: seq<Step>, k: nat, m: nat, t: Tid, l: LockId)
    requires IsRun(run, steps) && k < m < |run| && steps[k] == AcquireStep(t, l) && Inside(run, k, m, t)
    ensures t in run[m].threads
    ensures Acquiring(run[m].threads[t].pc, l) || (run[m].threads[t].pc.Outside? && l in run[m].threads[t].held)
  {
    RunKeeps(run, steps, m - 1);
    assert Enabled(run[m - 1], steps[m - 1]);
    if k + 1 == m {
      StepThread(run[k], steps[k], t);
    } else {
      AcquiresUntil(run, steps, k, m - 1, t, l);
      assert !IsOutside(run[m - 1], t);
      AcquiringNext(run[m - 1], steps[m - 1], t, l);
    }
  }

  /** `lock_acquire` comes back holding the lock. */
  lemma AcquireReturnsHolding(run: seq<State>, steps: seq<Step>, k: nat, m: nat, t: Tid, l: LockId)
    requires IsRun(run, steps) && k < m < |run| && steps[k] == AcquireStep(t, l) && Inside(run, k, m, t)
    requires IsOutside(run[m], t)
    ensures l in run[m].threads[t].held && l in run[m].locks && run[m].locks[l].holder == Some(t)
  {
    AcquiresUntil(run, steps, k, m, t, l);
    RunKeeps(run, steps, m);
    MutualExclusion(run[m], t, t, l);
  }

  // ----- sema_down comes back with a unit -----

  predicate Downing(pc: Pc, n: nat) {
    match pc
    case Blocked(q, k) => q == UserSem(n) && k == Return
    case Woken(q, k) => q == UserSem(n) && k == Return
    case _ => false
  }

  lemma {:induction false} DownsUntil(run: seq<State>, steps: seq<Step>, k: nat, m: nat, t: Tid, n: nat)
    requires IsRun(run, steps) && k < m < |run| && steps[k] == DownStep(t, n) && Inside(run, k, m, t)
    ensures t in run[m].threads && UserSem(n) in run[m - 1].sems && UserSem(n) in run[m].sems
    ensures Downing(run[m].threads[t].pc, n)
      || (run[m].threads[t].pc.Outside? && TakesUnit(run[m - 1], run[m], UserSem(n)))
  {
    RunKeeps(run, steps, m - 1);
    assert Enabled(run[m - 1], steps[m - 1]);
    if k + 1 < m {
      DownsUntil(run, steps, k, m - 1, t, n);
      assert !IsOutside(run[m - 1], t);
    }
    DowningNext(run[m - 1], steps[m - 1], t, n);
  }

  lemma DowningNext(s: State, e: Step, t: Tid, n: nat)
    requires Inv(s) && Enabled(s, e) && t in s.threads
    requires e == DownStep(t, n) || Downing(s.threads[t].pc, n)
    ensures UserSem(n) in s.sems && UserSem(n) in Next(s, e).sems && t in Next(s, e).threads
    ensures Downing(Next(s, e).threads[t].pc, n)
      || (Next(s, e).threads[t].pc.Outside? && TakesUnit(s, Next(s, e), UserSem(n)))
  {
    assert PcOk(s, t);
    StepThread(s, e, t);
    SemNext(s, e, UserSem(n));
  }

  ghost predicate TakesUnit(s: State, s': State, q: Sem) {
    && q in s.sems && q in s'.sems && s.sems[q].value > 0
    && s'.sems[q].value == s.sems[q].value - 1 && s'.sems[q].downs == s.sems[q].downs + 1
  }

  /** `sema_down` comes back in a step that takes one unit. */
  lemma DownReturns(run: seq<State>, steps: seq<Step>, k: nat, m: nat, t: Tid, n: nat)
    requires IsRun(run, steps) && k < m < |run| && steps[k] == DownStep(t, n) && Inside(run, k, m, t)
    requires IsOutside(run[m], t)
    ensures TakesUnit(run[m - 1], run[m], UserSem(n))
  {
    DownsUntil(run, steps, k, m, t, n);
  }

  /** Semaphores wake in the order of waiting: while w has not been woken, a thread behind it has not been either. */
  lemma {:induction false} WokenInOrder(run: seq<State>, steps: seq<Step>, k: nat, m: nat, q: Sem, w: Tid, u: Tid)
    requires IsRun(run, steps) && k <= m < |run|
    requires forall j {:trigger run[j]} :: k <= j <= m ==> q in run[j].sems && w in run[j].sems[q].waiters
    requires Before(run[k].sems[q].waiters, w, u)
    ensures Before(run[m].sems[q].waiters, w, u)
  {
    if k < m {
      WokenInOrder(run, steps, k, m - 1, q, w, u);
      RunKeeps(run, steps, m - 1);
      assert Enabled(run[m - 1], steps[m - 1]);
      SemNext(run[m - 1], steps[m - 1], q);
      assert SemOk(run[m - 1], q);
      StillBefore(run[m - 1].sems[q].waiters, run[m].sems[q].waiters, w, u);
    }
  }

  // ----- cond_signal and cond_broadcast have signalled when they come back -----

  /** t is in `cond_signal` or `cond_broadcast` on c. */
  ghost predicate InSignal(s: State, t: Tid, c: CondId, more: bool) {
    && t in s.threads && c in s.conds
    && match s.threads[t].pc
       case SignalUp(d, _, m) => d == c && m == more
       case Broadcasting(d) => d == c && more
       case _ => false
  }

  /** Thread w of the queue has been picked: the signal for it is with t. */
  ghost predicate Picked(s: State, t: Tid, c: CondId, w: Tid) {
    t in s.threads && s.threads[t].pc.SignalUp? && s.threads[t].pc.c == c && s.threads[t].pc.w == w
  }

  /** While t is inside, nobody else can join the queue or take from it: they would need the lock. */
  lemma SignallerHolds(s: State, e: Step, t: Tid, c: CondId, more: bool)
    requires Inv(s) && Enabled(s, e) && InSignal(s, t, c, more) && !By(e, t)
    ensures c in Next(s, e).conds && Next(s, e).conds[c].queue == s.conds[c].queue
  {
    assert PcOk(s, t) && HeldOk(s, t);
    match e
    case AcquireStep(u, l) => NotOwner(s, u, l);
    case TryAcquireStep(u, l) => NotOwner(s, u, l);
    case UpStep(n) => MayUp(s, UserSem(n));
    case SignalStep(u, d) => Picks(s, u, d);
    case GoStep(u) => GoLeaves(s, u, t, c, more);
    case _ =>
  }

  lemma GoLeaves(s: State, u: Tid, t: Tid, c: CondId, more: bool)
    requires Inv(s) && Enabled(s, GoStep(u)) && InSignal(s, t, c, more) && u != t
    ensures c in Go(s, u).conds && Go(s, u).conds[c].queue == s.conds[c].queue
  {
    assert PcOk(s, u) && PcOk(s, t);
    match s.threads[u].pc
    case UpLock(l, wait) => FinishReleaseKeeps(s, u, l, wait);
    case SignalUp(d, w, m) => FinishSignalKeeps(s, u, d, w, m);
    case Broadcasting(d) => assert CondOk(s, d) && HeldOk(s, t) && HeldOk(s, u);
    case WaitRelease(d) => assert HeldOk(s, u);
    case _ =>
  }

  lemma InSignalNext(s: State, e: Step, t: Tid, c: CondId, more: bool)
    requires Inv(s) && Enabled(s, e) && InSignal(s, t, c, more)
    ensures var s' := Next(s, e);
      && t in s'.threads && c in s'.conds
      && (InSignal(s', t, c, more) || (s'.threads[t].pc.Outside? && (more ==> s'.conds[c].queue == [])))
      && (forall w <- s.conds[c].queue :: w in s'.conds[c].queue || Picked(s', t, c, w))
      && (forall w :: Picked(s, t, c, w) ==>
            Picked(s', t, c, w) || (w in s'.threads && s'.threads[w].signal == Delivered))
  {
    StepThread(s, e, t);
    CondNext(s, e, c);
    if By(e, t) {
      assert PcOk(s, t);
      var pc := s.threads[t].pc;
      if pc.SignalUp? {
        FinishSignalKeeps(s, t, c, pc.w, more);
        SignalUpSignal(s, t, c, pc.w, more, pc.w);
      } else {
        assert CondOk(s, c);
        if s.conds[c].queue != [] { StillQueuedAll(s, c); }
      }
    } else {
      SignallerHolds(s, e, t, c, more);
    }
  }

  lemma StillQueuedAll(s: State, c: CondId)
    requires c in s.conds && s.conds[c].queue != []
    ensures forall w <- s.conds[c].queue :: w == s.conds[c].queue[0] || w in s.conds[c].queue[1..]
  {
    forall w <- s.conds[c].queue
      ensures w == s.conds[c].queue[0] || w in s.conds[c].queue[1..]
    {
      if w != s.conds[c].queue[0] { StillQueued(s, c, w); }
    }
  }

  /** After step k, w's signal has been delivered by state m. */
  ghost predicate DeliveredBy(run: seq<State>, k: nat, m: nat, w: Tid)
    requires m < |run|
  {
    exists j :: k < j <= m && w in run[j].threads && run[j].threads[w].signal == Delivered
  }

  lemma {:induction false} BroadcastsUntil(run: seq<State>, steps: seq<Step>, k: nat, m: nat, t: Tid, c: CondId)
    requires IsRun(run, steps) && k < m < |run| && steps[k] == BroadcastStep(t, c) && Inside(run, k, m, t)
    ensures t in run[m].threads && c in run[k].conds && c in run[m].conds
    ensures InSignal(run[m], t, c, true) || (run[m].threads[t].pc.Outside? && run[m].conds[c].queue == [])
    ensures forall w <- run[k].conds[c].queue ::
      w in run[m].conds[c].queue || Picked(run[m], t, c, w) || DeliveredBy(run, k, m, w)
  {
    RunKeeps(run, steps, m - 1);
    assert Enabled(run[m - 1], steps[m - 1]);
    if k + 1 == m {
      StepThread(run[k], steps[k], t);
    } else {
      BroadcastsUntil(run, steps, k, m - 1, t, c);
      assert !IsOutside(run[m - 1], t);
      InSignalNext(run[m - 1], steps[m - 1], t, c, true);
    }
  }

  /** When `cond_broadcast` comes back, every thread that was waiting has had its signal, and nobody is left. */
  lemma BroadcastSignalsAll(run: seq<State>, steps: seq<Step>, k: nat, m: nat, t: Tid, c: CondId)
    requires IsRun(run, steps) && k < m < |run| && steps[k] == BroadcastStep(t, c) && Inside(run, k, m, t)
    requires IsOutside(run[m], t)
    ensures c in run[k].conds && forall w <- run[k].conds[c].queue :: DeliveredBy(run, k, m, w)
    ensures c in run[m].conds && run[m].conds[c].queue == []
  {
    BroadcastsUntil(run, steps, k, m, t, c);
  }

  lemma {:induction false} SignalsUntil(run: seq<State>, steps: seq<Step>, k: nat, m: nat, t: Tid, c: CondId)
    requires IsRun(run, steps) && k < m < |run| && steps[k] == SignalStep(t, c) && Inside(run, k, m, t)
    requires c in run[k].conds && run[k].conds[c].queue != []
    ensures t in run[m].threads && c in run[m].conds
    ensures InSignal(run[m], t, c, false) || run[m].threads[t].pc.Outside?
    ensures var w := run[k].conds[c].queue[0];
      Picked(run[m], t, c, w) || DeliveredBy(run, k, m, w)
  {
    RunKeeps(run, steps, m - 1);
    assert Enabled(run[m - 1], steps[m - 1]);
    if k + 1 == m {
      StepThread(run[k], steps[k], t);
      CondNext(run[k], steps[k], c);
    } else {
      SignalsUntil(run, steps, k, m - 1, t, c);
      assert !IsOutside(run[m - 1], t);
      InSignalNext(run[m - 1], steps[m - 1], t, c, false);
    }
  }

  /** When `cond_signal` comes back, the longest waiter has had its signal. */
  lemma SignalSignalsFirst(run: seq<State>, steps: seq<Step>, k: nat, m: nat, t: Tid, c: CondId)
    requires IsRun(run, steps) && k < m < |run| && steps[k] == SignalStep(t, c) && Inside(run, k, m, t)
    requires IsOutside(run[m], t) && c in run[k].conds && run[k].conds[c].queue != []
    ensures DeliveredBy(run, k, m, run[k].conds[c].queue[0])
  {
    SignalsUntil(run, steps, k, m, t, c);
  }
}
