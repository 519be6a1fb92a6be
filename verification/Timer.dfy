/**
 Sleeping until a tick (timer_sleep, wait_less and timer_interrupt in proj1/src/devices/timer.c, with
 list_insert_ordered in proj1/src/lib/kernel/list.c).
 */
module Timer {
  /** `struct sleeping_sema`; `id` stands for its semaphore. */
  datatype Sleeper = Sleeper(id: nat, waitUntil: int)

  ghost predicate Sorted(list: seq<Sleeper>) {
    forall i, j {:trigger list[i], list[j]} :: 0 <= i < j < |list| ==> list[i].waitUntil <= list[j].waitUntil
  }

  /** How many sleepers are passed over: those at the front that do not wait longer than x. */
  function Position(list: seq<Sleeper>, x: Sleeper): (p: nat)
    ensures p <= |list| && (p < |list| ==> x.waitUntil < list[p].waitUntil)
    ensures forall i :: 0 <= i < p ==> list[i].waitUntil <= x.waitUntil
  {
    if list == [] || x.waitUntil < list[0].waitUntil then 0 else 1 + Position(list[1..], x)
  }

  /** `list_insert_ordered` with `wait_less`. */
  function Insert(list: seq<Sleeper>, x: Sleeper): seq<Sleeper> {
    var p := Position(list, x);
    list[..p] + [x] + list[p..]
  }

  /** How many at the front are due. */
  function DueCount(list: seq<Sleeper>, now: int): (n: nat)
    ensures n <= |list| && (n < |list| ==> now < list[n].waitUntil)
    ensures forall i :: 0 <= i < n ==> list[i].waitUntil <= now
  {
    if list == [] || now < list[0].waitUntil then 0 else 1 + DueCount(list[1..], now)
  }

  lemma InsertSorted(list: seq<Sleeper>, x: Sleeper)
    requires Sorted(list)
    ensures Sorted(Insert(list, x))
  {
    var r := Insert(list, x);
    forall i, j | 0 <= i < j < |r|
      ensures r[i].waitUntil <= r[j].waitUntil
    {
      PairSorted(list, x, i, j);
    }
  }

  lemma PairSorted(list: seq<Sleeper>, x: Sleeper, i: nat, j: nat)
    requires Sorted(list) && i < j <= |list|
    ensures |Insert(list, x)| == |list| + 1 && Insert(list, x)[i].waitUntil <= Insert(list, x)[j].waitUntil
  {
    var p := Position(list, x);
    if p < j - 1 { assert list[p].waitUntil <= list[j - 1].waitUntil; }
  }

  lemma InsertContents(list: seq<Sleeper>, x: Sleeper)
    ensures multiset(Insert(list, x)) == multiset(list) + multiset{x}
    ensures forall y :: y in Insert(list, x) <==> y in list || y == x
  {
    var p := Position(list, x);
    assert list == list[..p] + list[p..];
  }

  /** The position is determined by what its contract says. */
  lemma PositionIs(list: seq<Sleeper>, x: Sleeper, i: nat)
    requires i <= |list| && (i < |list| ==> x.waitUntil < list[i].waitUntil)
    requires forall j :: 0 <= j < i ==> list[j].waitUntil <= x.waitUntil
    ensures Position(list, x) == i
  {
  }

  /** In a sorted list those due are exactly the ones at the front: stopping at the first failure is right. */
  lemma DueExactly(list: seq<Sleeper>, now: int)
    requires Sorted(list)
    ensures var n := DueCount(list, now);
      && Sorted(list[n..])
      && (forall y <- list[..n] :: y.waitUntil <= now) && (forall y <- list[n..] :: now < y.waitUntil)
  {
    var n := DueCount(list, now);
    forall i, j | 0 <= i < j < |list| - n ensures list[n..][i].waitUntil <= list[n..][j].waitUntil {
      assert list[n + i].waitUntil <= list[n + j].waitUntil;
    }
    forall y | y in list[n..] ensures now < y.waitUntil {
      var k :| 0 <= k < |list| - n && list[n..][k] == y;
      assert y == list[n + k] && list[n].waitUntil <= list[n + k].waitUntil;
    }
  }

  /** When a sleep of cnt ticks that begins at `start` is over. */
  function Deadline(start: int, cnt: int): int { start + cnt }

  /** `woken` is for the statements below only: who has been woken. */
  class Clock {
    var ticks: int
    var waitingList: seq<Sleeper>
    ghost var woken: seq<Sleeper>

    /** The start of `timer_sleep`. */
    method Begin(id: nat, cnt: int) returns (ss: Sleeper)
      ensures ss == Sleeper(id, Deadline(ticks, cnt))
    {
      var start := ticks;
      ss := Sleeper(id, start + cnt);
    }

    /** The part of `timer_sleep` between reading the time and blocking. */
    method Sleep(ss: Sleeper)
      requires Sorted(waitingList)
      modifies this`waitingList
      ensures waitingList == Insert(old(waitingList), ss) && Sorted(waitingList)
    {
      InsertSorted(waitingList, ss);
      var i := 0;
      while i < |waitingList| && !(ss.waitUntil < waitingList[i].waitUntil)
        invariant 0 <= i <= |waitingList|
        invariant forall j :: 0 <= j < i ==> waitingList[j].waitUntil <= ss.waitUntil
      {
        i := i + 1;
      }
      PositionIs(waitingList, ss, i);
      waitingList := waitingList[..i] + [ss] + waitingList[i..];
    }

    /** `timer_interrupt`. */
    method Interrupt() returns (woke: bool)
      requires Sorted(waitingList)
      modifies this
      ensures ticks == old(ticks) + 1 && Sorted(waitingList)
      ensures var n := DueCount(old(waitingList), ticks);
        && waitingList == old(waitingList)[n..] && (woke <==> n > 0)
        && woken == old(woken) + old(waitingList)[..n]
    {
      ticks := ticks + 1;
      ghost var list, n, k := waitingList, DueCount(waitingList, ticks), 0;
      var done := false;
      woke := false;
      while !done && waitingList != []
        invariant Woken(list, k, ticks, waitingList) && (woke <==> k > 0) && (done ==> k == n)
        invariant ticks == old(ticks) + 1 && woken == old(woken) + list[..k]
        decreases !done, |waitingList|
      {
        FirstDue(list, k, ticks, waitingList);
        if ticks >= waitingList[0].waitUntil {
          WakeFirst();
          woke := true;
          k := k + 1;
        } else {
          done := true;
        }
      }
      WokenAll(list, k, ticks, waitingList);
    }

    /** `list_remove` and `sema_up`. */
    method WakeFirst()
      requires waitingList != []
      modifies this`waitingList, this`woken
      ensures waitingList == old(waitingList)[1..] && woken == old(woken) + [old(waitingList)[0]]
    {
      woken := woken + [waitingList[0]];
      waitingList := waitingList[1..];
    }
  }

  /** k sleepers have been woken, all of them due; the rest are on the list. */
  ghost predicate Woken(list: seq<Sleeper>, k: int, now: int, rest: seq<Sleeper>) {
    0 <= k <= DueCount(list, now) && rest == list[k..]
  }

  lemma FirstDue(list: seq<Sleeper>, k: int, now: int, rest: seq<Sleeper>)
    requires Woken(list, k, now, rest) && rest != []
    ensures rest[0].waitUntil <= now <==> k < DueCount(list, now)
    ensures rest[1..] == list[k + 1..] && list[..k + 1] == list[..k] + [rest[0]]
  {
    assert rest[0] == list[k];
  }

  /** When the list is empty or its front is not due, exactly the sleepers that are due have been woken. */
  lemma WokenAll(list: seq<Sleeper>, k: int, now: int, rest: seq<Sleeper>)
    requires Sorted(list) && Woken(list, k, now, rest) && (rest != [] ==> k == DueCount(list, now))
    ensures k == DueCount(list, now) && rest == list[k..] && Sorted(rest)
  {
    DueExactly(list, now);
  }

  // ----- whole runs -----

  /** `calling`: the deadlines of calls of `timer_sleep` that have read the time and are not on the list yet. */
  datatype State = State(ticks: int, waiting: seq<Sleeper>, calling: map<nat, int>)

  /** The two halves of `timer_sleep`, between which the clock may tick, and `timer_interrupt`. */
  datatype Event = Call(id: nat, cnt: int) | Asleep(id: nat) | Tick

  predicate Enabled(s: State, e: Event) { e.Asleep? ==> e.id in s.calling }

  function Next(s: State, e: Event): State
    requires Enabled(s, e)
  {
    match e
    case Call(id, cnt) => s.(calling := s.calling[id := Deadline(s.ticks, cnt)])
    case Asleep(id) =>
      s.(waiting := Insert(s.waiting, Sleeper(id, s.calling[id])), calling := s.calling - {id})
    case Tick => s.(ticks := s.ticks + 1, waiting := s.waiting[DueCount(s.waiting, s.ticks + 1)..])
  }

  /** Whom an event wakes. */
  function Wakes(s: State, e: Event): seq<Sleeper> {
    if e.Tick? then s.waiting[..DueCount(s.waiting, s.ticks + 1)] else []
  }

  ghost predicate IsRun(run: seq<State>, events: seq<Event>) {
    && |run| == |events| + 1 && Sorted(run[0].waiting)
    && forall k {:trigger events[k]} :: 0 <= k < |events| ==>
         Enabled(run[k], events[k]) && run[k + 1] == Next(run[k], events[k])
  }

  lemma {:induction false} RunSorted(run: seq<State>, events: seq<Event>, k: nat)
    requires IsRun(run, events) && k < |run|
    ensures Sorted(run[k].waiting)
  {
    if k > 0 {
      RunSorted(run, events, k - 1);
      assert run[k] == Next(run[k - 1], events[k - 1]);
      match events[k - 1]
      case Call(_, _) =>
      case Asleep(id) => InsertSorted(run[k - 1].waiting, Sleeper(id, run[k - 1].calling[id]));
      case Tick => DueExactly(run[k - 1].waiting, run[k - 1].ticks + 1);
    }
  }

  /** One event: a sleeper is woken by a tick that reaches its deadline, and otherwise goes on waiting.  Counting
      copies, nobody is lost, woken early, or woken twice. */
  lemma EventExact(s: State, e: Event, x: Sleeper)
    requires Sorted(s.waiting) && Enabled(s, e)
    ensures multiset(Wakes(s, e)) + multiset(Next(s, e).waiting) ==
      multiset(s.waiting) + if e.Asleep? then multiset{Sleeper(e.id, s.calling[e.id])} else multiset{}
    ensures x in Wakes(s, e) <==> e.Tick? && x in s.waiting && x.waitUntil <= s.ticks + 1
    ensures x in Next(s, e).waiting <==>
      if e.Tick? then x in s.waiting && s.ticks + 1 < x.waitUntil
      else x in s.waiting || (e.Asleep? && x == Sleeper(e.id, s.calling[e.id]))
  {
    if e.Asleep? { InsertContents(s.waiting, Sleeper(e.id, s.calling[e.id])); }
    if e.Tick? { DueContents(s.waiting, s.ticks + 1, x); }
  }

  lemma DueContents(list: seq<Sleeper>, now: int, x: Sleeper)
    requires Sorted(list)
    ensures var n := DueCount(list, now);
      && multiset(list[..n]) + multiset(list[n..]) == multiset(list)
      && (x in list[..n] <==> x in list && x.waitUntil <= now) && (x in list[n..] <==> x in list && now < x.waitUntil)
  {
    DueExactly(list, now);
    var n := DueCount(list, now);
    assert list == list[..n] + list[n..];
  }

  /** A sleeper waits through every tick before its deadline, and the first tick at or after it wakes it. */
  lemma {:induction false} WokenAtFirst(run: seq<State>, events: seq<Event>, k: nat, m: nat, x: Sleeper)
    requires IsRun(run, events) && k <= m < |run| && x in run[k].waiting
    requires forall j {:trigger events[j]} :: k <= j < m ==> events[j].Tick? ==> run[j].ticks + 1 < x.waitUntil
    ensures x in run[m].waiting
    ensures m < |events| && events[m].Tick? ==>
      (x in Wakes(run[m], events[m]) <==> x.waitUntil <= run[m].ticks + 1)
  {
    if k < m {
      WokenAtFirst(run, events, k, m - 1, x);
      RunSorted(run, events, m - 1);
      assert run[m] == Next(run[m - 1], events[m - 1]);
      EventExact(run[m - 1], events[m - 1], x);
    }
    RunSorted(run, events, m);
    if m < |events| { EventExact(run[m], events[m], x); }
  }

  /** The time is the number of ticks. */
  function TickCount(events: seq<Event>, k: nat, m: nat): nat
    requires k <= m <= |events|
  {
    if k == m then 0 else TickCount(events, k, m - 1) + if events[m - 1].Tick? then 1 else 0
  }

  lemma {:induction false} TicksPass(run: seq<State>, events: seq<Event>, k: nat, m: nat)
    requires IsRun(run, events) && k <= m < |run|
    ensures run[m].ticks == run[k].ticks + TickCount(events, k, m)
  {
    if k < m {
      TicksPass(run, events, k, m - 1);
      assert run[m] == Next(run[m - 1], events[m - 1]);
    }
  }

  /** Between its two halves a call is not mixed up with another. */
  ghost predicate NotMeddled(events: seq<Event>, k: nat, j: nat, id: nat)
    requires j <= |events|
  {
    forall i {:trigger events[i]} :: k < i < j ==>
      events[i] != Asleep(id) && (events[i].Call? ==> events[i].id != id)
  }

  lemma {:induction false} CallPending(run: seq<State>, events: seq<Event>, k: nat, j: nat, id: nat, cnt: int)
    requires IsRun(run, events) && k < j < |run| && events[k] == Call(id, cnt)
    requires NotMeddled(events, k, j, id)
    ensures id in run[j].calling && run[j].calling[id] == run[k].ticks + cnt
  {
    assert run[j] == Next(run[j - 1], events[j - 1]);
    if k < j - 1 { CallPending(run, events, k, j - 1, id, cnt); }
  }

  /** `timer_sleep (cnt)`, called at event k and on the list at event j, is woken by the tick m if cnt ticks have passed
      since the call when tick m is counted, and it has not been woken by an earlier tick; otherwise it is not. */
  lemma SleepsFor(run: seq<State>, events: seq<Event>, k: nat, j: nat, m: nat, id: nat, cnt: int)
    requires IsRun(run, events) && k < j < m < |events| && events[k] == Call(id, cnt) && events[j] == Asleep(id)
    requires NotMeddled(events, k, j, id)
    requires forall i {:trigger events[i]} :: j < i < m && events[i].Tick? ==> TickCount(events, k, i) + 1 < cnt
    requires events[m].Tick?
    ensures Sleeper(id, run[k].ticks + cnt) in Wakes(run[m], events[m]) <==> cnt <= TickCount(events, k, m) + 1
  {
    var x := Sleeper(id, run[k].ticks + cnt);
    OnList(run, events, k, j, id, cnt);
    NotYet(run, events, k, j, m, cnt);
    WokenAtFirst(run, events, j + 1, m, x);
    TicksPass(run, events, k, m);
  }

  lemma OnList(run: seq<State>, events: seq<Event>, k: nat, j: nat, id: nat, cnt: int)
    requires IsRun(run, events) && k < j < |events| && events[k] == Call(id, cnt) && events[j] == Asleep(id)
    requires NotMeddled(events, k, j, id)
    ensures Sleeper(id, run[k].ticks + cnt) in run[j + 1].waiting
  {
    CallPending(run, events, k, j, id, cnt);
    assert run[j + 1] == Next(run[j], events[j]);
    InsertContents(run[j].waiting, Sleeper(id, run[k].ticks + cnt));
  }

  lemma NotYet(run: seq<State>, events: seq<Event>, k: nat, j: nat, m: nat, cnt: int)
    requires IsRun(run, events) && k < j < m < |events|
    requires forall i {:trigger events[i]} :: j < i < m && events[i].Tick? ==> TickCount(events, k, i) + 1 < cnt
    ensures forall i {:trigger events[i]} :: j < i < m && events[i].Tick? ==> run[i].ticks + 1 < run[k].ticks + cnt
  {
    forall i {:trigger events[i]} | j < i < m && events[i].Tick?
      ensures run[i].ticks + 1 < run[k].ticks + cnt
    {
      TicksPass(run, events, k, i);
    }
  }
}
