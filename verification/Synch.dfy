/**
 Semaphores, locks and condition variables (proj2/src/threads/synch.c) under every interleaving.

 A step is what one thread does with interrupts off, or one statement of code that can be interrupted:
 a lock is taken by a `sema_down` and, later, the assignment of its holder, and given up by clearing the
 holder and, later, a `sema_up`.
 */
module Synch {
  import opened Lists

  type Tid = nat
  type LockId = nat
  type CondId = nat

  /** A semaphore of the program's, a lock's, or the one that a thread in `cond_wait` has on its stack. */
  datatype Sem = UserSem(n: nat) | LockSem(l: LockId) | WaiterSem(t: Tid)

  /** `struct semaphore`; the last three count what has happened to it since `sema_init`. */
  datatype Sema = Sema(value: nat, waiters: seq<Tid>, initial: nat, ups: nat, downs: nat)

  /** `struct lock`.  `owner` is who has downed its semaphore and not upped it yet. */
  datatype Lock = Lock(holder: Option<Tid>, owner: Option<Tid>)

  /** `struct condition`, with the lock that protects it; its list elements stand for the threads that wait. */
  datatype Condition = Condition(lock: LockId, queue: seq<Tid>)

  /** What follows a completed `sema_down`. */
  datatype Cont = Return | TakeLock(l: LockId) | Reacquire(c: CondId)

  datatype Pc =
    | Outside                              // in no function of this file
    | Calling(s: Sem, k: Cont)             // about to call sema_down
    | Blocked(s: Sem, k: Cont)             // in thread_block, inside sema_down
    | Woken(s: Sem, k: Cont)               // unblocked, about to look at the value again
    | SetHolder(l: LockId)                 // lock_acquire, before it sets the holder
    | WaitRelease(c: CondId)               // cond_wait, before lock_release
    | UpLock(l: LockId, wait: Option<CondId>)   // lock_release, before its sema_up
    | SignalUp(c: CondId, w: Tid, more: bool)   // cond_signal, before its sema_up
    | Broadcasting(c: CondId)              // cond_broadcast, at the head of its loop

  /** How far the signal for one `cond_wait` has come. */
  datatype Signal = NotWaiting | Queued | InFlight(from: Tid) | Delivered

  /** `held`: the locks it has acquired and not begun to release. */
  datatype Thread = Thread(pc: Pc, held: set<LockId>, signal: Signal)

  datatype State = State(
    sems: map<Sem, Sema>, threads: map<Tid, Thread>, locks: map<LockId, Lock>, conds: map<CondId, Condition>)

  function WithThread(s: State, t: Tid, r: Thread): State { s.(threads := s.threads[t := r]) }

  function At(s: State, t: Tid, pc: Pc): State
    requires t in s.threads
  {
    WithThread(s, t, s.threads[t].(pc := pc))
  }

  function WithSem(s: State, q: Sem, r: Sema): State { s.(sems := s.sems[q := r]) }

  // ----- semaphores -----

  /** What a continuation refers to is there. */
  predicate Known(s: State, k: Cont) {
    match k
    case Return => true
    case TakeLock(l) => l in s.locks
    case Reacquire(c) => c in s.conds
  }

  /** Once round the loop of `sema_down`, and past it if the value is positive. */
  function Down(s: State, t: Tid, q: Sem, k: Cont): State
    requires t in s.threads && q in s.sems && Known(s, k)
  {
    var r := s.sems[q];
    if r.value == 0 then At(WithSem(s, q, r.(waiters := r.waiters + [t])), t, Blocked(q, k))
    else Continued(WithSem(s, q, r.(value := r.value - 1, downs := r.downs + 1)), t, k)
  }

  /** After a completed down. */
  function Continued(s: State, t: Tid, k: Cont): State
    requires t in s.threads && Known(s, k)
  {
    match k
    case Return => At(s, t, Outside)
    case TakeLock(l) => At(s.(locks := s.locks[l := s.locks[l].(owner := Some(t))]), t, SetHolder(l))
    case Reacquire(c) =>
      var l := s.conds[c].lock;
      WithThread(s, t, s.threads[t].(pc := Calling(LockSem(l), TakeLock(l)), signal := NotWaiting))
  }

  /** `sema_up`. */
  function Up(s: State, q: Sem): State
    requires q in s.sems && forall t <- s.sems[q].waiters :: t in s.threads && s.threads[t].pc.Blocked?
  {
    var r := s.sems[q];
    var waiters := if r.waiters == [] then [] else r.waiters[1..];
    var s1 := WithSem(s, q, r.(value := r.value + 1, ups := r.ups + 1, waiters := waiters));
    if r.waiters == [] then s1
    else At(s1, r.waiters[0], Woken(s.threads[r.waiters[0]].pc.s, s.threads[r.waiters[0]].pc.k))
  }

  // ----- invariants -----

  /** The threads that were woken for q and have not looked at its value since. */
  function WokenOn(threads: map<Tid, Thread>, q: Sem): set<Tid> {
    set t | t in threads && threads[t].pc.Woken? && threads[t].pc.s == q
  }

  /** The list holds exactly the threads blocked on it (with ThreadOk), and while there are any, no more units
      are available than there are threads on their way to take them. */
  ghost predicate SemOk(s: State, q: Sem)
    requires q in s.sems
  {
    var r := s.sems[q];
    && Distinct(r.waiters)
    && (forall t {:trigger t in r.waiters} :: t in r.waiters ==>
          t in s.threads && s.threads[t].pc.Blocked? && s.threads[t].pc.s == q)
    && (r.waiters != [] ==> r.value <= |WokenOn(s.threads, q)|)
    && r.value + r.downs == r.initial + r.ups
  }

  /** The condition that a thread in `cond_wait` waits for, until its down on its own semaphore completes. */
  function WaitsFor(pc: Pc): Option<CondId> {
    match pc
    case WaitRelease(c) => Some(c)
    case UpLock(_, wait) => wait
    case Calling(_, Reacquire(c)) => Some(c)
    case Blocked(_, Reacquire(c)) => Some(c)
    case Woken(_, Reacquire(c)) => Some(c)
    case _ => None
  }

  /** A continuation fits the semaphore. */
  ghost predicate ContOk(s: State, t: Tid, q: Sem, k: Cont) {
    && q in s.sems
    && match k
       case Return => q.UserSem?
       case TakeLock(l) => q == LockSem(l) && l in s.locks && s.locks[l].owner != Some(t)
       case Reacquire(c) =>
         && q == WaiterSem(t) && c in s.conds
         && s.conds[c].lock in s.locks && s.locks[s.conds[c].lock].owner != Some(t)
  }

  ghost predicate PcOk(s: State, t: Tid)
    requires t in s.threads
  {
    match s.threads[t].pc
    case Outside => true
    case Calling(q, k) => ContOk(s, t, q, k)
    case Blocked(q, k) => ContOk(s, t, q, k) && t in s.sems[q].waiters
    case Woken(q, k) => ContOk(s, t, q, k)
    case SetHolder(l) => l in s.locks && s.locks[l] == Lock(None, Some(t))
    case WaitRelease(c) => c in s.conds && s.conds[c].lock in s.threads[t].held
    case UpLock(l, wait) =>
      && l in s.locks && s.locks[l] == Lock(None, Some(t))
      && (wait.Some? ==> wait.value in s.conds && s.conds[wait.value].lock == l)
    case SignalUp(c, w, _) =>
      && c in s.conds && s.conds[c].lock in s.threads[t].held
      && w in s.threads && s.threads[w].signal == InFlight(t)
    case Broadcasting(c) => c in s.conds && s.conds[c].lock in s.threads[t].held
  }

  /** The signal for a wait is in exactly one place: still to come, under way, or in the waiter's semaphore. */
  ghost predicate SignalOk(s: State, t: Tid)
    requires t in s.threads
  {
    var r := s.threads[t];
    && WaiterSem(t) in s.sems
    && s.sems[WaiterSem(t)].value == (if r.signal == Delivered then 1 else 0)
    && (WaitsFor(r.pc) == None <==> r.signal == NotWaiting)
    && (r.signal == Queued ==> WaitsFor(r.pc).value in s.conds && t in s.conds[WaitsFor(r.pc).value].queue)
    && (r.signal.InFlight? ==>
          && r.signal.from in s.threads && s.threads[r.signal.from].pc.SignalUp?
          && s.threads[r.signal.from].pc.w == t)
    && (r.pc.Woken? && r.pc.s == WaiterSem(t) ==> r.signal == Delivered)
  }

  ghost predicate HeldOk(s: State, t: Tid)
    requires t in s.threads
  {
    forall l <- s.threads[t].held :: l in s.locks && s.locks[l] == Lock(Some(t), Some(t))
  }

  /** The lock's semaphore is 1 when nobody is inside, 0 when somebody is. */
  ghost predicate LockOk(s: State, l: LockId)
    requires l in s.locks
  {
    var r := s.locks[l];
    && LockSem(l) in s.sems
    && s.sems[LockSem(l)].value == (if r.owner == None then 1 else 0)
    && (r.holder.Some? ==> r.owner == r.holder && r.holder.value in s.threads && l in s.threads[r.holder.value].held)
    && (r.owner.Some? && r.holder == None ==>
          && r.owner.value in s.threads
          && var pc := s.threads[r.owner.value].pc;
            pc == SetHolder(l) || (pc.UpLock? && pc.l == l))
  }

  ghost predicate CondOk(s: State, c: CondId)
    requires c in s.conds
  {
    && s.conds[c].lock in s.locks && Distinct(s.conds[c].queue)
    && forall w {:trigger w in s.conds[c].queue} :: w in s.conds[c].queue ==>
         w in s.threads && s.threads[w].signal == Queued && WaitsFor(s.threads[w].pc) == Some(c)
  }

  ghost predicate SemsOk(s: State) { forall q {:trigger SemOk(s, q)} :: q in s.sems ==> SemOk(s, q) }

  ghost predicate ThreadsOk(s: State) {
    forall t {:trigger PcOk(s, t)} {:trigger SignalOk(s, t)} {:trigger HeldOk(s, t)} ::
      t in s.threads ==> PcOk(s, t) && SignalOk(s, t) && HeldOk(s, t)
  }

  ghost predicate LocksOk(s: State) { forall l {:trigger LockOk(s, l)} :: l in s.locks ==> LockOk(s, l) }

  ghost predicate CondsOk(s: State) { forall c {:trigger CondOk(s, c)} :: c in s.conds ==> CondOk(s, c) }

  ghost predicate Inv(s: State) { SemsOk(s) && ThreadsOk(s) && LocksOk(s) && CondsOk(s) }

  // ----- steps -----

  datatype Step =
    | DownStep(t: Tid, n: nat) | TryDownStep(t: Tid, n: nat) | UpStep(n: nat)
    | AcquireStep(t: Tid, l: LockId) | TryAcquireStep(t: Tid, l: LockId) | ReleaseStep(t: Tid, l: LockId)
    | WaitStep(t: Tid, c: CondId) | SignalStep(t: Tid, c: CondId) | BroadcastStep(t: Tid, c: CondId)
    | GoStep(t: Tid)

  ghost predicate IsOutside(s: State, t: Tid) { t in s.threads && s.threads[t].pc.Outside? }

  /** The source's assertions: no recursive acquiring, and only a holder releases, waits and signals. */
  ghost predicate Enabled(s: State, e: Step) {
    match e
    case DownStep(t, n) => IsOutside(s, t) && UserSem(n) in s.sems
    case TryDownStep(t, n) => IsOutside(s, t) && UserSem(n) in s.sems
    case UpStep(n) => UserSem(n) in s.sems
    case AcquireStep(t, l) => IsOutside(s, t) && l in s.locks && s.locks[l].holder != Some(t)
    case TryAcquireStep(t, l) => IsOutside(s, t) && l in s.locks && s.locks[l].holder != Some(t)
    case ReleaseStep(t, l) => IsOutside(s, t) && l in s.locks && s.locks[l].holder == Some(t)
    case WaitStep(t, c) => IsOutside(s, t) && c in s.conds && HoldsLockOf(s, t, c)
    case SignalStep(t, c) => IsOutside(s, t) && c in s.conds && HoldsLockOf(s, t, c)
    case BroadcastStep(t, c) => IsOutside(s, t) && c in s.conds && HoldsLockOf(s, t, c)
    case GoStep(t) => t in s.threads && !s.threads[t].pc.Outside? && !s.threads[t].pc.Blocked?
  }

  ghost predicate HoldsLockOf(s: State, t: Tid, c: CondId)
    requires c in s.conds
  {
    s.conds[c].lock in s.locks && s.locks[s.conds[c].lock].holder == Some(t)
  }

  /** `lock->holder = thread_current ()`. */
  function Taken(s: State, t: Tid, l: LockId): State
    requires t in s.threads && l in s.locks
  {
    var s1 := s.(locks := s.locks[l := s.locks[l].(holder := Some(t))]);
    WithThread(s1, t, s.threads[t].(pc := Outside, held := s.threads[t].held + {l}))
  }

  /** `lock->holder = NULL`. */
  function Clear(s: State, t: Tid, l: LockId, wait: Option<CondId>): State
    requires t in s.threads && l in s.locks
  {
    var s1 := s.(locks := s.locks[l := s.locks[l].(holder := None)]);
    WithThread(s1, t, s.threads[t].(pc := UpLock(l, wait), held := s.threads[t].held - {l}))
  }

  /** The waiter's semaphore is initialised and queued. */
  function Enqueue(s: State, t: Tid, c: CondId): State
    requires t in s.threads && c in s.conds
  {
    var s1 := WithSem(s, WaiterSem(t), Sema(0, [], 0, 0, 0));
    WithThread(s1.(conds := s.conds[c := s.conds[c].(queue := s.conds[c].queue + [t])]),
               t, s.threads[t].(pc := WaitRelease(c), signal := Queued))
  }

  /** The first waiter is taken off the queue, if there is one. */
  function Dequeue(s: State, t: Tid, c: CondId, more: bool): State
    requires t in s.threads && c in s.conds && forall w <- s.conds[c].queue :: w in s.threads
  {
    var queue := s.conds[c].queue;
    if queue == [] then At(s, t, Outside)
    else
      var w := queue[0];
      var s1 := s.(conds := s.conds[c := s.conds[c].(queue := queue[1..])]);
      At(WithThread(s1, w, s.threads[w].(signal := InFlight(t))), t, SignalUp(c, w, more))
  }

  /** `sema_up` on the lock. */
  function FinishRelease(s: State, t: Tid, l: LockId, wait: Option<CondId>): State
    requires t in s.threads && l in s.locks && CanUp(s, LockSem(l))
  {
    var s1 := Up(s.(locks := s.locks[l := s.locks[l].(owner := None)]), LockSem(l));
    At(s1, t, if wait.Some? then Calling(WaiterSem(t), Reacquire(wait.value)) else Outside)
  }

  /** `sema_up` on the waiter's semaphore. */
  function FinishSignal(s: State, t: Tid, c: CondId, w: Tid, more: bool): State
    requires t in s.threads && w in s.threads && CanUp(s, WaiterSem(w))
  {
    var s1 := Up(WithThread(s, w, s.threads[w].(signal := Delivered)), WaiterSem(w));
    At(s1, t, if more then Broadcasting(c) else Outside)
  }

  ghost predicate CanUp(s: State, q: Sem) {
    q in s.sems && forall t <- s.sems[q].waiters :: t in s.threads && s.threads[t].pc.Blocked?
  }
}
