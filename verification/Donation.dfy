/**
 What every step of the scheduler and of priority donation keeps, and what follows for a run.
 */
module Donation {
  import opened Lists
  import opened Threads

  // ----- invariants -----

  /** Exactly one thread runs; the ready list holds the ready threads, each once, and not the idle
      thread; a waiter list holds the threads blocked on that lock, each once. */
  ghost predicate Scheduling(s: State) {
    && Queues(s)
    && forall t {:trigger s.threads[t].status} :: t in s.threads ==>
         (s.threads[t].status == RUNNING <==> t == s.current)
  }

  ghost predicate Queues(s: State) {
    && s.current in s.threads && s.idle in s.threads && s.threads[s.idle].pc.Normal?
    && Distinct(s.ready)
    && (forall t {:trigger t in s.ready} :: t in s.ready <==>
          t in s.threads && t != s.idle && s.threads[t].status == READY)
    && (forall l {:trigger s.locks[l].waiters} :: l in s.locks ==> Distinct(s.locks[l].waiters))
    && (forall l, t {:trigger t in s.locks[l].waiters} :: l in s.locks ==> (t in s.locks[l].waiters <==>
          t in s.threads && s.threads[t].status == BLOCKED && s.threads[t].pc == InDown(l)))
    && (forall t {:trigger s.threads[t].pc} :: t in s.threads ==>
          (s.threads[t].status == BLOCKED && t != s.idle ==> s.threads[t].pc.InDown? || s.threads[t].pc.Asleep?))
    && (forall t {:trigger s.threads[t].pc} :: t in s.threads && s.threads[t].pc.Asleep? ==>
          s.threads[t].status == BLOCKED)
  }

  /** The state between a change of the running thread's status and the end of `schedule`. */
  ghost predicate Descheduled(s: State) {
    && Queues(s)
    && forall t {:trigger s.threads[t].status} :: t in s.threads ==> s.threads[t].status != RUNNING
  }

  /** A lock's semaphore is 0 exactly while it has a holder, and nobody waits for a lock it holds. */
  ghost predicate Locking(s: State) {
    && (forall l {:trigger s.locks[l]} :: l in s.locks ==>
          (s.locks[l].holder.Some? ==> s.locks[l].holder.value in s.threads) &&
          s.locks[l].value == if s.locks[l].holder.Some? then 0 else 1)
    && (forall t {:trigger s.threads[t].pc} :: t in s.threads && s.threads[t].pc.InDown? ==>
          s.threads[t].pc.lock in s.locks && s.locks[s.threads[t].pc.lock].holder != Some(t))
  }

  /** Only a thread inside `lock_acquire` donates, and its element carries its current priority. */
  ghost predicate Donor(s: State, d: Tid)
    requires d in s.threads
  {
    var r := s.threads[d];
    r.bene.Some? ==>
      && r.bene.value in s.threads && r.bene.value != d
      && r.pc == InDown(r.beneElem.lock)
      && r.beneElem.priority == r.priority
  }

  /** Every linked element belongs to a thread that donates to this one, for a lock this one holds. */
  ghost predicate Linked(s: State, t: Tid)
    requires t in s.threads
  {
    && Distinct(s.threads[t].chain)
    && forall d <- s.threads[t].chain ::
         && d in s.threads && s.threads[d].bene == Some(t)
         && s.threads[d].beneElem.lock in s.locks
         && s.locks[s.threads[d].beneElem.lock].holder == Some(t)
  }

  /** The priority is the maximum of the base and the chain; only a thread that has not finished
      `lock_release` may still run above it. */
  ghost predicate PriorityOk(s: State, t: Tid)
    requires t in s.threads
  {
    ChainOk(s, t) && s.threads[t].priority >= Exact(s, t) &&
    (!s.threads[t].pc.InRelease? ==> s.threads[t].priority == Exact(s, t))
  }

  ghost predicate AllPrioritiesOk(s: State) {
    forall t {:trigger PriorityOk(s, t)} :: t in s.threads ==> PriorityOk(s, t)
  }

  ghost predicate Donating(s: State) {
    && (forall t {:trigger Donor(s, t)} :: t in s.threads ==> Donor(s, t))
    && (forall t {:trigger Linked(s, t)} :: t in s.threads ==> Linked(s, t))
    && AllPrioritiesOk(s)
  }

  ghost predicate Inv(s: State) {
    Scheduling(s) && Locking(s) && Donating(s) && Acyclic(s)
  }

  // ----- beneficiary paths -----

  /** A thread has at most one path. */
  lemma {:induction false} PathUnique(s: State, p: seq<Tid>, q: seq<Tid>)
    requires IsBenePath(s, p) && IsBenePath(s, q) && p[0] == q[0]
    ensures p == q
    decreases |p|
  {
    if |p| > 1 && |q| > 1 {
      PathUnique(s, p[1..], q[1..]);
      assert p == [p[0]] + p[1..] && q == [q[0]] + q[1..];
    }
  }

  lemma {:induction false} PathSuffix(s: State, p: seq<Tid>, i: nat)
    requires IsBenePath(s, p) && i < |p|
    ensures IsBenePath(s, p[i..])
  {
    if i > 0 {
      PathSuffix(s, p[1..], i - 1);
      assert p[1..][i - 1..] == p[i..];
    } else {
      assert p[0..] == p;
    }
  }

  /** A path never meets a thread twice, so following `bene` terminates. */
  lemma PathDistinct(s: State, p: seq<Tid>)
    requires IsBenePath(s, p)
    ensures Distinct(p)
  {
    forall i, j | 0 <= i < j < |p|
      ensures p[i] != p[j]
    {
      if p[i] == p[j] { MeetsOnce(s, p, i, j); }
    }
  }

  lemma MeetsOnce(s: State, p: seq<Tid>, i: nat, j: nat)
    requires IsBenePath(s, p) && i < |p| && j < |p| && p[i] == p[j]
    ensures i == j
  {
    PathSuffix(s, p, i);
    PathSuffix(s, p, j);
    PathUnique(s, p[i..], p[j..]);
    assert |p[i..]| == |p| - i && |p[j..]| == |p| - j;
  }

  /** Paths depend on the `bene` fields alone. */
  lemma {:induction false} PathTransfer(s: State, s': State, p: seq<Tid>)
    requires IsBenePath(s, p)
    requires forall t <- p :: t in s'.threads && s'.threads[t].bene == s.threads[t].bene
    ensures IsBenePath(s', p)
    decreases |p|
  {
    if |p| > 1 {
      PathTransfer(s, s', p[1..]);
    }
  }

  lemma AcyclicTransfer(s: State, s': State)
    requires Acyclic(s) && s'.threads.Keys == s.threads.Keys
    requires forall t <- s.threads :: s'.threads[t].bene == s.threads[t].bene
    ensures Acyclic(s')
  {
    forall t <- s'.threads
      ensures HasPath(s', t)
    {
      PathTransfer(s, s', PathFrom(s, t));
    }
  }

  /** Clearing a beneficiary cuts paths short and so keeps them finite. */
  lemma AcyclicCut(s: State, s': State, c: Tid)
    requires Acyclic(s) && s'.threads.Keys == s.threads.Keys && c in s.threads
    requires forall t <- s.threads :: s'.threads[t].bene == if t == c then None else s.threads[t].bene
    ensures Acyclic(s')
  {
    forall t <- s'.threads
      ensures HasPath(s', t)
    {
      var _ := CutPath(s, s', c, PathFrom(s, t));
    }
  }

  lemma {:induction false} CutPath(s: State, s': State, c: Tid, p: seq<Tid>) returns (q: seq<Tid>)
    requires IsBenePath(s, p) && s'.threads.Keys == s.threads.Keys && c in s.threads
    requires forall t <- s.threads :: s'.threads[t].bene == if t == c then None else s.threads[t].bene
    ensures IsBenePath(s', q) && q[0] == p[0]
    decreases |p|
  {
    if p[0] == c || |p| == 1 {
      q := [p[0]];
    } else {
      var r := CutPath(s, s', c, p[1..]);
      q := [p[0]] + r;
      assert q[1..] == r;
    }
  }

  /** A new edge from c, which donated to nobody, to h closes a cycle exactly when c is on h's path. */
  lemma AcyclicExtend(s: State, s': State, c: Tid, h: Tid)
    requires Acyclic(s) && s'.threads.Keys == s.threads.Keys && c in s.threads && h in s.threads
    requires s.threads[c].bene == None
    requires forall t <- s.threads :: s'.threads[t].bene == if t == c then Some(h) else s.threads[t].bene
    ensures Acyclic(s') <==> c !in PathFrom(s, h)
  {
    var q := PathFrom(s, h);
    if c in q {
      NoWayOut(s, s', c, h, q);
    } else {
      PathTransfer(s, s', q);
      forall t <- s'.threads
        ensures HasPath(s', t)
      {
        var _ := ExtendPath(s, s', c, PathFrom(s, t), q);
      }
    }
  }

  lemma {:induction false} ExtendPath(s: State, s': State, c: Tid, p: seq<Tid>, q: seq<Tid>) returns (r: seq<Tid>)
    requires IsBenePath(s, p) && IsBenePath(s', q) && s'.threads.Keys == s.threads.Keys && c in s.threads
    requires s.threads[c].bene == None
    requires forall t <- s.threads :: s'.threads[t].bene == if t == c then Some(q[0]) else s.threads[t].bene
    ensures IsBenePath(s', r) && r[0] == p[0]
    decreases |p|
  {
    if p[0] == c {
      r := [c] + q;
      assert r[1..] == q;
    } else if |p| == 1 {
      r := p;
    } else {
      var rest := ExtendPath(s, s', c, p[1..], q);
      r := [p[0]] + rest;
      assert r[1..] == rest;
    }
  }

  lemma NoWayOut(s: State, s': State, c: Tid, h: Tid, q: seq<Tid>)
    requires IsBenePath(s, q) && q[0] == h && c in q && s.threads[c].bene == None
    requires s'.threads.Keys == s.threads.Keys
    requires forall t <- s.threads :: s'.threads[t].bene == if t == c then Some(h) else s.threads[t].bene
    ensures !HasPath(s', c)
  {
    if HasPath(s', c) {
      var p := PathFrom(s', c);
      FollowCycle(s, s', q, p[1..], c);
      MeetsOnce(s', p, 0, |q|);
    }
  }

  /** A path of the new state that starts where q starts has to run along q and so back to c. */
  lemma {:induction false} FollowCycle(s: State, s': State, q: seq<Tid>, p: seq<Tid>, c: Tid)
    requires IsBenePath(s, q) && c in q && s.threads[c].bene == None
    requires IsBenePath(s', p) && p[0] == q[0]
    requires forall t <- s.threads :: t != c ==> t in s'.threads && s'.threads[t].bene == s.threads[t].bene
    ensures |p| >= |q| && p[|q| - 1] == c
    decreases |q|
  {
    if |q| > 1 {
      assert q == [q[0]] + q[1..];
      FollowCycle(s, s', q[1..], p[1..], c);
    }
  }

  // ----- propagation along a path -----

  lemma {:induction false} ChainMaxSame(ts: map<Tid, Thread>, ts': map<Tid, Thread>, chain: seq<Tid>, base: int)
    requires forall d <- chain :: d in ts && d in ts' && ts'[d].beneElem.priority == ts[d].beneElem.priority
    ensures ChainMax(ts', chain, base) == ChainMax(ts, chain, base)
  {
    if chain != [] {
      assert forall d <- chain[1..] :: d in chain;
      ChainMaxSame(ts, ts', chain[1..], base);
    }
  }

  lemma ExactSame(s: State, s': State, u: Tid)
    requires ChainOk(s, u) && u in s'.threads
    requires s'.threads[u].chain == s.threads[u].chain && s'.threads[u].initPri == s.threads[u].initPri
    requires forall d <- s.threads[u].chain ::
      d in s'.threads && s'.threads[d].beneElem.priority == s.threads[d].beneElem.priority
    ensures ChainOk(s', u) && Exact(s', u) == Exact(s, u)
  {
    ChainMaxSame(s.threads, s'.threads, s.threads[u].chain, s.threads[u].initPri);
  }

  /** A thread on the path is linked, if anywhere, in its beneficiary's chain. */
  ghost predicate LinkedToNext(s: State, path: seq<Tid>) {
    forall u <- s.threads :: forall d <- s.threads[u].chain ::
      d in s.threads && (d in path ==> s.threads[d].bene == Some(u))
  }

  ghost predicate Settled(s: State, s': State, path: seq<Tid>) {
    && s'.threads.Keys == s.threads.Keys
    && AllPrioritiesOk(s')
    && (forall u <- path :: ChainOk(s', u) && s'.threads[u].priority == Exact(s', u))
    && (forall u <- path :: s'.threads[u].bene.Some? ==>
          s'.threads[u].beneElem.priority == s'.threads[u].priority)
    && (forall u <- s.threads :: u !in path ==> s'.threads[u] == s.threads[u])
  }

  /** Every priority but that of the first thread on the path is right. */
  ghost predicate Pending(s: State, path: seq<Tid>) {
    && IsBenePath(s, path) && LinkedToNext(s, path)
    && (forall u {:trigger ChainOk(s, u)} :: u in s.threads ==> ChainOk(s, u))
    && (forall u {:trigger PriorityOk(s, u)} :: u in s.threads && u != path[0] ==> PriorityOk(s, u))
  }

  /** If every priority but the first one on the path is right, then after `thread_update_donation`
      all are, every thread on the path runs exactly at the maximum of its base and its chain, every
      element on the path carries its donor's priority, and nobody off the path is touched. */
  lemma {:induction false} PropagateSettles(s: State, path: seq<Tid>)
    requires Pending(s, path)
    ensures Settled(s, Propagate(s, path), path)
    decreases |path|
  {
    if |path| == 1 {
      assert path == [path[0]];
      OnlyThread(s, path[0]);
    } else {
      var s2, rest := PassOn(UpdatePriority(s, path[0]), path[0]), path[1..];
      FirstStep(s, s2, path, rest);
      PropagateSettles(s2, rest);
      Combine(s, s2, Propagate(s2, rest), path, rest);
    }
  }

  lemma OnlyThread(s: State, t: Tid)
    requires Pending(s, [t])
    ensures AllPrioritiesOk(UpdatePriority(s, t))
    ensures ChainOk(UpdatePriority(s, t), t)
    ensures UpdatePriority(s, t).threads[t].priority == Exact(UpdatePriority(s, t), t)
  {
    var s1 := UpdatePriority(s, t);
    assert [t][0] == t;
    forall u <- s.threads
      ensures PriorityOk(s1, u) && (u == t ==> s1.threads[t].priority == Exact(s1, t))
    {
      assert ChainOk(s, u) && (u != t ==> PriorityOk(s, u));
      ExactSame(s, s1, u);
    }
  }

  /** The first thread on the path has its final priority and has passed it on. */
  ghost predicate FirstSettled(s: State, s2: State, t: Tid, next: Tid) {
    && t in s.threads && s2.threads.Keys == s.threads.Keys
    && (forall u <- s.threads :: u != t ==> s2.threads[u] == s.threads[u])
    && s2.threads[t].bene == Some(next) && ChainOk(s2, t)
    && s2.threads[t].priority == Exact(s2, t) == s2.threads[t].beneElem.priority
  }

  lemma FirstStep(s: State, s2: State, path: seq<Tid>, rest: seq<Tid>)
    requires Pending(s, path) && |path| > 1 && rest == path[1..]
    requires s2 == PassOn(UpdatePriority(s, path[0]), path[0])
    ensures Pending(s2, rest) && FirstSettled(s, s2, path[0], rest[0])
  {
    var t := path[0];
    PathTransfer(s, s2, rest);
    PathDistinct(s, path);
    assert t in path && forall d <- rest :: d in path;
    forall u <- s.threads
      ensures ChainOk(s2, u) && (u != rest[0] ==> PriorityOk(s2, u) && Exact(s2, u) == Exact(s, u))
    {
      assert ChainOk(s, u) && (u != t ==> PriorityOk(s, u));
      if u != rest[0] {
        assert t !in s.threads[u].chain;
        ExactSame(s, s2, u);
      }
    }
  }

  lemma Combine(s: State, s2: State, s': State, path: seq<Tid>, rest: seq<Tid>)
    requires |path| > 1 && rest == path[1..]
    requires Pending(s2, rest) && FirstSettled(s, s2, path[0], rest[0])
    requires OnlyPriorities(s2, s') && Settled(s2, s', rest)
    ensures Settled(s, s', path)
  {
    var t := path[0];
    assert IsBenePath(s2, path);
    PathDistinct(s2, path);
    forall d <- s2.threads[t].chain
      ensures s'.threads[d] == s2.threads[d]
    {
      if d in rest { NeverBackToStart(s2, path, d); }
    }
    ExactSame(s2, s', t);
    assert path == [t] + rest;
  }

  lemma NeverBackToStart(s: State, path: seq<Tid>, d: Tid)
    requires IsBenePath(s, path) && d in path[1..]
    ensures s.threads[d].bene != Some(path[0])
  {
    var j :| 0 <= j < |path[1..]| && path[1..][j] == d;
    PathSuffix(s, path, j + 1);
    PathDistinct(s, path);
  }

  // ----- scheduling -----

  ghost predicate SameButStatus(s: State, s': State) {
    && s'.threads.Keys == s.threads.Keys && s'.locks.Keys == s.locks.Keys && s'.idle == s.idle
    && (forall t <- s.threads :: s'.threads[t] == s.threads[t].(status := s'.threads[t].status))
    && (forall l {:trigger s'.locks[l]} :: l in s.locks ==> s'.locks[l].holder == s.locks[l].holder)
  }

  /** Locks, chains and paths say nothing about run states and queues. */
  lemma StatusIrrelevant(s: State, s': State)
    requires SameButStatus(s, s') && Locking(s) && Donating(s) && Acyclic(s)
    requires forall l {:trigger s'.locks[l]} :: l in s.locks ==> s'.locks[l].value == s.locks[l].value
    ensures Locking(s') && Donating(s') && Acyclic(s')
  {
    ChainsIrrelevant(s, s');
  }

  lemma ChainsIrrelevant(s: State, s': State)
    requires SameButStatus(s, s') && Donating(s) && Acyclic(s)
    ensures Donating(s') && Acyclic(s')
  {
    AcyclicTransfer(s, s');
    forall t | t in s.threads
      ensures Donor(s', t) && Linked(s', t) && PriorityOk(s', t)
    {
      assert Donor(s, t) && Linked(s, t) && PriorityOk(s, t);
      ExactSame(s, s', t);
    }
  }

  /** `schedule` picks a ready thread of the highest priority, of those the one that was queued first,
      and the idle thread only when no other is ready.  New threads are queued at the front, so being
      last among equals is having waited longest. */
  lemma ScheduleChooses(s: State)
    requires Descheduled(s)
    ensures ListsOk(s)
    ensures Schedule(s).current == s.idle <==> s.ready == []
    ensures s.ready != [] ==> exists m :: LastLargest(Keys(s, s.ready), m) && Schedule(s).current == s.ready[m]
  {
    if s.ready != [] {
      var keys := Keys(s, s.ready);
      var m := MaxIndex(keys, PriorityLess());
      LastOfTheLargest(keys);
      assert LastLargest(keys, m);
      assert s.ready[m] in s.ready;
    }
  }

  lemma DispatchKeeps(s: State, m: nat)
    requires Descheduled(s) && m < |s.ready|
    ensures s.ready[m] in s.ready && s.ready[m] in s.threads
    ensures var s' := Dispatch(s.(ready := RemoveAt(s.ready, m)), s.ready[m]);
      Scheduling(s') && SameButStatus(s, s')
  {
    assert s.ready[m] in s.ready;
    RemoveDistinct(s.ready, m);
  }

  lemma IdleKeeps(s: State)
    requires Descheduled(s)
    ensures Scheduling(Dispatch(s, s.idle)) && SameButStatus(s, Dispatch(s, s.idle))
  {
  }

  lemma ScheduleKeeps(s: State)
    requires Descheduled(s) && Locking(s) && Donating(s) && Acyclic(s)
    ensures ListsOk(s) && Inv(Schedule(s))
  {
    if s.ready == [] {
      IdleKeeps(s);
    } else {
      DispatchKeeps(s, MaxIndex(Keys(s, s.ready), PriorityLess()));
    }
    StatusIrrelevant(s, Schedule(s));
  }

  lemma YieldKeeps(s: State)
    requires Inv(s)
    ensures ListsOk(s) && Inv(Yield(s))
  {
    PutBackQueues(s);
    StatusIrrelevant(s, PutBack(s));
    ScheduleKeeps(PutBack(s));
  }

  lemma PutBackQueues(s: State)
    requires Scheduling(s)
    ensures ListsOk(s) && Descheduled(PutBack(s)) && SameButStatus(s, PutBack(s))
  {
    var s1 := PutBack(s);
    if s.current != s.idle {
      PushDistinct(s.current, s.ready);
    }
    assert forall t :: t in s1.ready <==> t in s.ready || (t == s.current && t != s.idle);
  }
}
