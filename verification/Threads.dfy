/**
 Threads, locks, the priority scheduler and priority donation
 (proj1/src/threads/thread.c, thread.h, synch.c): the state and what each step does to it.

 A step is the code a thread runs from one point where it gives up the processor to the next.
 Pointers to threads and locks are keys of two maps. The `struct priority_elem` that `lock_acquire`
 keeps on the donor's stack is the field `beneElem` of the donor, and a priority chain lists donors.
 */
module Threads {
  import opened Lists

  type Tid = nat
  type LockId = nat

  datatype Status = RUNNING | READY | BLOCKED

  /** Where a thread continues when it is next scheduled: in ordinary code, in the loop of
      `sema_down` for a lock, in `lock_release` after `sema_up` has yielded, or after `thread_block`. */
  datatype Pc = Normal | InDown(lock: LockId) | InRelease | Asleep

  datatype PriorityElem = PriorityElem(priority: int, lock: LockId)

  datatype Thread = Thread(
    status: Status, priority: int, bene: Option<Tid>, beneElem: PriorityElem,
    initPri: int, chain: seq<Tid>, pc: Pc)

  datatype Lock = Lock(holder: Option<Tid>, value: nat, waiters: seq<Tid>)

  datatype State = State(
    threads: map<Tid, Thread>, locks: map<LockId, Lock>, ready: seq<Tid>, current: Tid, idle: Tid)

  function With(s: State, t: Tid, r: Thread): State {
    s.(threads := s.threads[t := r])
  }

  function WithLock(s: State, l: LockId, k: Lock): State {
    s.(locks := s.locks[l := k])
  }

  // ----- priorities -----

  /** The largest of a base priority and the priorities donated along a chain. */
  function ChainMax(ts: map<Tid, Thread>, chain: seq<Tid>, base: int): (m: int)
    requires forall d <- chain :: d in ts
    ensures m >= base && forall d <- chain :: m >= ts[d].beneElem.priority
  {
    if chain == [] then base
    else
      var rest := ChainMax(ts, chain[1..], base);
      assert forall d <- chain :: d == chain[0] || d in chain[1..];
      if ts[chain[0]].beneElem.priority > rest then ts[chain[0]].beneElem.priority else rest
  }

  /** The donated priorities themselves. */
  function Donations(ts: map<Tid, Thread>, chain: seq<Tid>): (ks: seq<int>)
    requires forall d <- chain :: d in ts
    ensures |ks| == |chain| && forall i :: 0 <= i < |chain| ==> ks[i] == ts[chain[i]].beneElem.priority
  {
    seq(|chain|, i requires 0 <= i < |chain| => ts[chain[i]].beneElem.priority)
  }

  ghost predicate ChainOk(s: State, t: Tid) {
    t in s.threads && forall d <- s.threads[t].chain :: d in s.threads
  }

  /** max(init_pri, priority_chain). */
  function Exact(s: State, t: Tid): int
    requires ChainOk(s, t)
  {
    ChainMax(s.threads, s.threads[t].chain, s.threads[t].initPri)
  }

  /** `thread_update_priority`. */
  function UpdatePriority(s: State, t: Tid): State
    requires ChainOk(s, t)
  {
    With(s, t, s.threads[t].(priority := Exact(s, t)))
  }

  /** path[0], its beneficiary, that one's beneficiary, and so on up to a thread that donates to nobody. */
  ghost predicate IsBenePath(s: State, path: seq<Tid>)
    ensures IsBenePath(s, path) ==> forall t <- path :: t in s.threads
    decreases |path|
  {
    && |path| > 0
    && path[0] in s.threads
    && if |path| == 1 then s.threads[path[0]].bene == None
       else
         s.threads[path[0]].bene == Some(path[1]) && IsBenePath(s, path[1..])
  }

  /** `thread_update_donation` on path[0]: recompute, pass the new priority on, and go on to the
      beneficiary. */
  ghost function Propagate(s: State, path: seq<Tid>): (s': State)
    requires forall t <- path :: ChainOk(s, t)
    ensures OnlyPriorities(s, s')
    decreases |path|
  {
    if path == [] then s
    else
      var s1 := UpdatePriority(s, path[0]);
      if |path| == 1 then s1
      else
        var s2 := PassOn(s1, path[0]);
        ChainsKept(s, s2, path[1..]);
        Propagate(s2, path[1..])
  }

  lemma ChainsKept(s: State, s': State, path: seq<Tid>)
    requires forall t <- path :: ChainOk(s, t)
    requires OnlyPriorities(s, s')
    ensures forall t <- path :: ChainOk(s', t)
  {
    forall t <- path
      ensures ChainOk(s', t)
    {
      assert ChainOk(s, t) && SameButPriorities(s.threads[t], s'.threads[t]);
    }
  }

  /** `recipient->bene_elem->priority = recipient->priority`. */
  function PassOn(s: State, t: Tid): State
    requires t in s.threads
  {
    var r := s.threads[t];
    With(s, t, r.(beneElem := r.beneElem.(priority := r.priority)))
  }

  /** Nothing differs but priorities and the priorities stored in priority elements. */
  ghost predicate OnlyPriorities(s: State, s': State) {
    && s'.threads.Keys == s.threads.Keys
    && s'.locks == s.locks && s'.ready == s.ready && s'.current == s.current && s'.idle == s.idle
    && forall t <- s.threads :: SameButPriorities(s.threads[t], s'.threads[t])
  }

  predicate SameButPriorities(r: Thread, r': Thread) {
    r' == r.(priority := r'.priority, beneElem := r.beneElem.(priority := r'.beneElem.priority))
  }

  ghost predicate HasPath(s: State, t: Tid) {
    exists p :: IsBenePath(s, p) && p[0] == t
  }

  ghost function PathFrom(s: State, t: Tid): (p: seq<Tid>)
    requires HasPath(s, t)
    ensures IsBenePath(s, p) && p[0] == t
  {
    var p :| IsBenePath(s, p) && p[0] == t;
    p
  }

  ghost predicate Acyclic(s: State) {
    forall t {:trigger HasPath(s, t)} :: t in s.threads ==> HasPath(s, t)
  }

  // ----- the scheduler -----

  function Priorities(ts: map<Tid, Thread>, list: seq<Tid>): (ks: seq<int>)
    requires forall t <- list :: t in ts
    ensures |ks| == |list| && forall i :: 0 <= i < |list| ==> ks[i] == ts[list[i]].priority
  {
    seq(|list|, i requires 0 <= i < |list| => ts[list[i]].priority)
  }

  function Keys(s: State, list: seq<Tid>): (ks: seq<int>)
    requires forall t <- list :: t in s.threads
    ensures |ks| == |list| && forall i :: 0 <= i < |list| ==> ks[i] == s.threads[list[i]].priority
  {
    Priorities(s.threads, list)
  }

  ghost predicate ListsOk(s: State) {
    && s.current in s.threads && s.idle in s.threads
    && (forall t <- s.ready :: t in s.threads)
    && (forall l <- s.locks :: forall t <- s.locks[l].waiters :: t in s.threads)
  }

  /** `schedule` with `next_thread_to_run`; the running thread's status has already changed. */
  function Schedule(s: State): State
    requires ListsOk(s)
  {
    if s.ready == [] then Dispatch(s, s.idle)
    else
      var m := MaxIndex(Keys(s, s.ready), PriorityLess());
      Dispatch(s.(ready := RemoveAt(s.ready, m)), s.ready[m])
  }

  function Dispatch(s: State, next: Tid): State
    requires next in s.threads
  {
    With(s, next, s.threads[next].(status := RUNNING)).(current := next)
  }

  /** What `thread_yield` does before it schedules; the idle thread is never queued. */
  function PutBack(s: State): State
    requires ListsOk(s)
  {
    var s1 := if s.current != s.idle then s.(ready := [s.current] + s.ready) else s;
    With(s1, s.current, s.threads[s.current].(status := READY))
  }

  function Yield(s: State): State
    requires ListsOk(s)
  {
    Schedule(PutBack(s))
  }

  /** `thread_unblock`: to the front of the ready list. */
  function MakeReady(s: State, t: Tid): State
    requires t in s.threads
  {
    With(s, t, s.threads[t].(status := READY)).(ready := [t] + s.ready)
  }

  // ----- steps -----

  /** A thread goes to sleep on l, after the donation if there was one. */
  function FallAsleep(s: State, l: LockId): (s': State)
    requires ListsOk(s) && l in s.locks
    ensures ListsOk(s')
  {
    var c, k := s.current, s.locks[l];
    var s1 := WithLock(s, l, k.(waiters := k.waiters + [c]));
    With(s1, c, s1.threads[c].(status := BLOCKED, pc := InDown(l)))
  }

  /** One turn of the loop in `sema_down` and, when the value is positive, the rest of `lock_acquire`. */
  function Down(s: State, l: LockId): State
    requires ListsOk(s) && l in s.locks
  {
    var c, k := s.current, s.locks[l];
    if k.value == 0 then Schedule(FallAsleep(s, l))
    else
      With(WithLock(s, l, k.(value := k.value - 1, holder := Some(c))), c,
           s.threads[c].(bene := None, pc := Normal))
  }

  lemma AllChainsOk(s: State, s': State)
    requires forall t {:trigger ChainOk(s, t)} :: t in s.threads ==> ChainOk(s, t)
    requires s'.threads.Keys == s.threads.Keys
    requires forall t <- s'.threads :: forall d <- s'.threads[t].chain :: d in s.threads[t].chain || d == s.current
    requires s.current in s.threads
    ensures forall t <- s'.threads :: ChainOk(s', t)
  {
    forall t <- s'.threads
      ensures ChainOk(s', t)
    {
      assert ChainOk(s, t);
    }
  }

  ghost predicate CanAcquire(s: State, l: LockId) {
    && ListsOk(s) && (forall t {:trigger ChainOk(s, t)} :: t in s.threads ==> ChainOk(s, t))
    && l in s.locks && s.current != s.idle && s.threads[s.current].pc.Normal?
    && s.locks[l].holder != Some(s.current)
    && (s.locks[l].holder.Some? ==> HasPath(s, s.locks[l].holder.value))
  }

  /** A fresh priority element for the current thread, pushed on the holder's chain. */
  function Push(s: State, l: LockId, h: Tid): State
    requires s.current in s.threads && h in s.threads
  {
    var c := s.current;
    var s1 := With(s, c, s.threads[c].(beneElem := PriorityElem(s.threads[c].priority, l)));
    With(s1, h, s1.threads[h].(chain := [c] + s1.threads[h].chain))
  }

  /** The first lines of `lock_acquire`: donate to the holder, then record the beneficiary. */
  ghost function Donate(s: State, l: LockId): State
    requires CanAcquire(s, l) && s.locks[l].holder.Some?
  {
    var c, h := s.current, s.locks[l].holder.value;
    var s1 := Push(s, l, h);
    AllChainsOk(s, s1);
    var s2 := Propagate(s1, PathFrom(s, h));
    With(s2, c, s2.threads[c].(bene := Some(h)))
  }

  /** `lock_acquire` up to its return or its first sleep. */
  ghost function Acquire(s: State, l: LockId): State
    requires CanAcquire(s, l)
  {
    Down(if s.locks[l].holder.Some? then Donate(s, l) else s, l)
  }

  ghost predicate CanRetry(s: State, l: LockId) {
    ListsOk(s) && l in s.locks && s.threads[s.current].pc == InDown(l)
  }

  ghost predicate CanRelease(s: State, l: LockId) {
    && ListsOk(s) && ChainOk(s, s.current)
    && l in s.locks && s.locks[l].holder == Some(s.current)
    && s.current != s.idle && s.threads[s.current].pc.Normal?
    && LocksKnown(s, s.threads[s.current].chain)
  }

  ghost predicate LocksKnown(s: State, chain: seq<Tid>) {
    forall d <- chain :: d in s.threads && s.threads[d].beneElem.lock in s.locks
  }

  /** `thread_release_priorities`: unlink the elements of locks the thread does not hold. */
  function StillHeld(s: State, t: Tid, chain: seq<Tid>): (kept: seq<Tid>)
    requires LocksKnown(s, chain)
    ensures forall d :: d in kept <==> d in chain && s.locks[s.threads[d].beneElem.lock].holder == Some(t)
    ensures |kept| <= |chain|
  {
    if chain == [] then []
    else
      assert forall d :: d in chain <==> d == chain[0] || d in chain[1..];
      var rest := StillHeld(s, t, chain[1..]);
      if s.locks[s.threads[chain[0]].beneElem.lock].holder == Some(t) then [chain[0]] + rest else rest
  }

  /** `sema_up` up to its call of `thread_yield`: wake one of the most urgent waiters. */
  function Up(s: State, l: LockId): (s': State)
    requires ListsOk(s) && l in s.locks
    ensures ListsOk(s')
  {
    var k := s.locks[l];
    if k.waiters == [] then WithLock(s, l, k.(value := k.value + 1))
    else
      var m := MaxIndex(Keys(s, k.waiters), PriorityLess());
      var s1 := WithLock(s, l, k.(waiters := RemoveAt(k.waiters, m), value := k.value + 1));
      MakeReady(s1, k.waiters[m])
  }

  /** `lock->holder = NULL` and `thread_release_priorities`. */
  function LetGo(s: State, l: LockId): State
    requires CanRelease(s, l)
  {
    var c := s.current;
    var s1 := WithLock(s, l, s.locks[l].(holder := None));
    With(s1, c, s1.threads[c].(chain := StillHeld(s1, c, s1.threads[c].chain), pc := InRelease))
  }

  /** `lock_release` up to the yield inside `sema_up`. */
  function Release(s: State, l: LockId): State
    requires CanRelease(s, l)
  {
    Yield(Up(LetGo(s, l), l))
  }

  ghost predicate CanFinish(s: State) {
    ListsOk(s) && ChainOk(s, s.current) && s.threads[s.current].pc.InRelease?
  }

  /** The rest of `lock_release`: drop to the priority still owed, and yield again. */
  function FinishRelease(s: State): State
    requires CanFinish(s)
  {
    var s1 := UpdatePriority(s, s.current);
    Yield(With(s1, s1.current, s1.threads[s1.current].(pc := Normal)))
  }

  ghost predicate CanSetPriority(s: State) {
    && ListsOk(s) && (forall t {:trigger ChainOk(s, t)} :: t in s.threads ==> ChainOk(s, t))
    && s.threads[s.current].pc.Normal? && HasPath(s, s.current)
  }

  /** `thread_set_priority`. */
  ghost function SetPriority(s: State, p: int): State
    requires CanSetPriority(s)
  {
    Yield(Based(s, p))
  }

  /** `thread_set_priority` up to its `thread_yield`. */
  ghost function Based(s: State, p: int): State
    requires CanSetPriority(s)
  {
    var s1 := With(s, s.current, s.threads[s.current].(initPri := p));
    AllChainsOk(s, s1);
    Propagate(s1, PathFrom(s, s.current))
  }

  /** `thread_block`, called by a thread that waits for something other than a lock. */
  function Block(s: State): State
    requires ListsOk(s)
  {
    Schedule(FallAsleepElsewhere(s))
  }

  function FallAsleepElsewhere(s: State): State
    requires s.current in s.threads
  {
    var pc := if s.current == s.idle then Normal else Asleep;
    With(s, s.current, s.threads[s.current].(status := BLOCKED, pc := pc))
  }

  ghost predicate CanUnblock(s: State, t: Tid) {
    t in s.threads && t != s.idle && s.threads[t].status == BLOCKED && s.threads[t].pc.Asleep?
  }

  /** `thread_unblock` on such a thread. */
  function Unblock(s: State, t: Tid): State
    requires CanUnblock(s, t)
  {
    MakeReady(With(s, t, s.threads[t].(pc := Normal)), t)
  }

  /** `thread_create`: the new thread starts out blocked, is unblocked, and the creator yields. */
  function Create(s: State, t: Tid, priority: int): State
    requires ListsOk(s) && t !in s.threads
  {
    Yield(Born(s, t, priority))
  }

  function Born(s: State, t: Tid, priority: int): State {
    var r := Thread(BLOCKED, priority, None, PriorityElem(0, 0), priority, [], Normal);
    MakeReady(With(s, t, r), t)
  }

  // ----- runs -----

  datatype Step =
    | AcquireStep(lock: LockId)
    | RetryStep(lock: LockId)
    | ReleaseStep(lock: LockId)
    | FinishReleaseStep
    | SetPriorityStep(priority: int)
    | YieldStep
    | BlockStep
    | UnblockStep(tid: Tid)
    | CreateStep(tid: Tid, priority: int)

  ghost predicate Enabled(s: State, a: Step) {
    && ListsOk(s)
    && match a
       case AcquireStep(l) => CanAcquire(s, l)
       case RetryStep(l) => CanRetry(s, l)
       case ReleaseStep(l) => CanRelease(s, l)
       case FinishReleaseStep => CanFinish(s)
       case SetPriorityStep(_) => CanSetPriority(s)
       case YieldStep => true
       case BlockStep => s.threads[s.current].pc.Normal?
       case UnblockStep(t) => CanUnblock(s, t)
       case CreateStep(t, _) => t !in s.threads && s.current != s.idle
  }

  ghost function Next(s: State, a: Step): State
    requires Enabled(s, a)
  {
    match a
    case AcquireStep(l) => Acquire(s, l)
    case RetryStep(l) => Down(s, l)
    case ReleaseStep(l) => Release(s, l)
    case FinishReleaseStep => FinishRelease(s)
    case SetPriorityStep(p) => SetPriority(s, p)
    case YieldStep => Yield(s)
    case BlockStep => Block(s)
    case UnblockStep(t) => Unblock(s, t)
    case CreateStep(t, p) => Create(s, t, p)
  }
}
