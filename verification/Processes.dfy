/**
 Parents and children (proj2/src/userprog/process.c and thread_create in proj2/src/threads/thread.c):
 exec, wait and exit over the shared `struct process_info`.

 A step is what one process does between two points where it can lose the processor; `process_exit` is
 one step.  Live processes and allocated records are the keys of two maps, so reading a freed record or a
 dead process would be a partial map lookup, and that no step does so is part of what is proved.
 */
module Processes {
  import opened Lists

  type Pid = nat
  type InfoId = nat

  datatype Place =
    | Loading                              // start_process, before the outcome of load is known
    | Running
    | InExec(info: InfoId)                 // process_execute, at sema_down (&child_info->sema_start)
    | InWait(info: InfoId)                 // process_wait, at sema_down (&p_info->sema_finish)

  /** The fields of `struct thread` that matter here. */
  datatype Process = Process(children: seq<InfoId>, pInfo: Option<InfoId>, place: Place)

  /** `success` is None until start_process sets it. */
  datatype Info = Info(exitStatus: int, pid: Pid, child: Option<Pid>, success: Option<bool>, start: nat, finish: nat)

  /** `nextPid` is the thread-id counter, `nextInfo` an unused address; `ended` records, for the
      statements below only, the status with which each process has ended. */
  datatype State = State(
    procs: map<Pid, Process>, infos: map<InfoId, Info>, nextPid: Pid, nextInfo: InfoId, ended: map<Pid, int>)

  function WithProc(s: State, p: Pid, r: Process): State { s.(procs := s.procs[p := r]) }

  function WithInfo(s: State, i: InfoId, r: Info): State { s.(infos := s.infos[i := r]) }

  // ----- steps -----

  ghost predicate CanExec(s: State, p: Pid) {
    p in s.procs && s.procs[p].place.Running?
  }

  /** `process_execute` up to its `sema_down`, with the part of `thread_create` that ties the new thread to
      the record at the back of the creator's list. */
  function Exec(s: State, p: Pid): State
    requires CanExec(s, p)
  {
    var i, c := s.nextInfo, s.nextPid;
    var parent := s.procs[p].(children := s.procs[p].children + [i], place := InExec(i));
    s.(infos := s.infos[i := Info(-1, c, Some(c), None, 0, 0)],
       procs := s.procs[p := parent][c := Process([], Some(i), Loading)],
       nextPid := c + 1, nextInfo := i + 1)
  }

  ghost predicate CanReturnExec(s: State, p: Pid) {
    && p in s.procs && s.procs[p].place.InExec?
    && s.procs[p].place.info in s.infos && s.infos[s.procs[p].place.info].start > 0
    && s.infos[s.procs[p].place.info].success.Some?
  }

  /** `process_execute` from there: the child's id, or TID_ERROR when it could not be loaded. */
  function ReturnExec(s: State, p: Pid): (State, int)
    requires CanReturnExec(s, p)
  {
    var i := s.procs[p].place.info;
    var r := s.infos[i];
    (WithProc(WithInfo(s, i, r.(start := r.start - 1)), p, s.procs[p].(place := Running)),
     if r.success == Some(true) then r.pid else -1)
  }

  ghost predicate CanLoad(s: State, c: Pid) {
    && c in s.procs && s.procs[c].place.Loading? && s.procs[c].children == []
    && s.procs[c].pInfo.Some? && s.procs[c].pInfo.value in s.infos
  }

  /** `start_process` when the program could be loaded. */
  function LoadOk(s: State, c: Pid): State
    requires CanLoad(s, c)
  {
    var i := s.procs[c].pInfo.value;
    WithProc(WithInfo(s, i, s.infos[i].(success := Some(true), start := s.infos[i].start + 1)),
             c, s.procs[c].(place := Running))
  }

  /** `start_process` when it could not, with the exit that follows. */
  function LoadFail(s: State, c: Pid): State
    requires CanLoad(s, c)
  {
    var i := s.procs[c].pInfo.value;
    Leave(WithInfo(s, i, s.infos[i].(success := Some(false))), c, -1)
  }

  ghost predicate CanExit(s: State, c: Pid) {
    && c in s.procs && s.procs[c].place.Running?
    && (s.procs[c].pInfo.Some? ==>
          s.procs[c].pInfo.value in s.infos && s.infos[s.procs[c].pInfo.value].success.Some?)
  }

  /** `syscall_process_exit`. */
  function Exit(s: State, c: Pid, status: int): State
    requires CanExit(s, c)
  {
    var pInfo := s.procs[c].pInfo;
    Leave(if pInfo.Some? then WithInfo(s, pInfo.value, s.infos[pInfo.value].(exitStatus := status)) else s, c, status)
  }

  /** A process killed by an exception: `thread_exit` without a status. */
  function Kill(s: State, c: Pid): State
    requires CanExit(s, c)
  {
    Leave(s, c, -1)
  }

  /** `process_exit`: the children's records go, the own record is marked, and whoever waits is woken. */
  function Leave(s: State, c: Pid, status: int): State
    requires c in s.procs
    requires s.procs[c].pInfo.Some? ==>
      s.procs[c].pInfo.value in s.infos && s.infos[s.procs[c].pInfo.value].success.Some?
  {
    var s1 := Orphaned(s, s.procs[c].children);
    var pInfo := s.procs[c].pInfo;
    var s2 := if pInfo.Some? && pInfo.value in s1.infos then Marked(s1, pInfo.value) else s1;
    s2.(procs := s2.procs - {c}, ended := s2.ended[c := status])
  }

  function Marked(s: State, i: InfoId): State
    requires i in s.infos
  {
    var r := s.infos[i];
    WithInfo(s, i, r.(child := None, finish := r.finish + 1,
                      start := if r.success == Some(true) then r.start else r.start + 1))
  }

  /** The records on the list are freed; processes they belonged to lose their pointer. */
  function Orphaned(s: State, list: seq<InfoId>): State {
    s.(infos := map i | i in s.infos && i !in list :: s.infos[i],
       procs := map q | q in s.procs :: Forget(s.procs[q], list))
  }

  function Forget(r: Process, list: seq<InfoId>): Process {
    if r.pInfo.Some? && r.pInfo.value in list then r.(pInfo := None) else r
  }

  ghost predicate CanWait(s: State, p: Pid) {
    && p in s.procs && s.procs[p].place.Running?
    && forall i <- s.procs[p].children :: i in s.infos
  }

  /** The record `process_wait` finds on the list, if any. */
  function FindChild(s: State, list: seq<InfoId>, c: Pid): (r: Option<InfoId>)
    requires forall i <- list :: i in s.infos
    ensures r.Some? ==> r.value in list && s.infos[r.value].pid == c
    ensures r.None? ==> forall i <- list :: s.infos[i].pid != c
  {
    if list == [] then None
    else
      assert forall i <- list :: i == list[0] || i in list[1..];
      if s.infos[list[0]].pid == c then Some(list[0]) else FindChild(s, list[1..], c)
  }

  /** `process_wait` up to its `sema_down`; without such a child it returns -1 at once. */
  function Wait(s: State, p: Pid, c: Pid): (State, Option<int>)
    requires CanWait(s, p)
  {
    match FindChild(s, s.procs[p].children, c)
    case None => (s, Some(-1))
    case Some(i) => (WithProc(s, p, s.procs[p].(place := InWait(i))), None)
  }

  ghost predicate CanReturnWait(s: State, p: Pid) {
    && p in s.procs && s.procs[p].place.InWait?
    && s.procs[p].place.info in s.infos && s.infos[s.procs[p].place.info].finish > 0
  }

  /** `process_wait` from there: the status, and the record is unlinked and freed. */
  function ReturnWait(s: State, p: Pid): (State, int)
    requires CanReturnWait(s, p)
  {
    var i := s.procs[p].place.info;
    (s.(infos := s.infos - {i},
        procs := s.procs[p := s.procs[p].(children := Without(s.procs[p].children, i), place := Running)]),
     s.infos[i].exitStatus)
  }

  // ----- invariants -----

  /** A live process and the record about it point at each other. */
  ghost predicate ProcOk(s: State, p: Pid)
    requires p in s.procs
  {
    var r := s.procs[p];
    && p < s.nextPid && p !in s.ended
    && Distinct(r.children)
    && (forall i {:trigger i in r.children} :: i in r.children ==> i in s.infos)
    && (r.pInfo.Some? ==> r.pInfo.value in s.infos && s.infos[r.pInfo.value].child == Some(p))
    && match r.place
       case Loading => r.pInfo.Some? && r.children == []
       case Running => true
       case InExec(i) => i in r.children
       case InWait(i) => i in r.children
  }

  /** A record: `sema_finish` is up exactly when the child is gone; `sema_start` is up exactly when the
      outcome of the load is known and not yet collected. */
  ghost predicate InfoOk(s: State, i: InfoId)
    requires i in s.infos
  {
    var r := s.infos[i];
    && i < s.nextInfo && r.pid < s.nextPid
    && if r.child.Some? then ChildAlive(s, i, r) else ChildGone(s, r)
  }

  ghost predicate ChildAlive(s: State, i: InfoId, r: Info) {
    && r.child == Some(r.pid) && r.pid in s.procs && s.procs[r.pid].pInfo == Some(i)
    && r.finish == 0 && r.exitStatus == -1
    && (r.success.None? <==> s.procs[r.pid].place.Loading?) && r.success != Some(false)
  }

  ghost predicate ChildGone(s: State, r: Info) {
    && r.child.None? && r.pid !in s.procs
    && r.finish == 1 && r.success.Some?
    && r.pid in s.ended && r.exitStatus == s.ended[r.pid]
  }

  /** Who owns a record, how far `process_execute` has got with it, and that children are younger. */
  ghost predicate OwnerOk(s: State, p: Pid, i: InfoId)
    requires p in s.procs && i in s.infos
  {
    i in s.procs[p].children ==>
      && p < s.infos[i].pid
      && (s.procs[p].place == InExec(i) ==> s.infos[i].start == if s.infos[i].success.Some? then 1 else 0)
      && (s.procs[p].place != InExec(i) ==> s.infos[i].start == 0 && s.infos[i].success.Some?)
  }

  ghost predicate Owned(s: State, i: InfoId) {
    exists p {:trigger s.procs[p]} :: p in s.procs && i in s.procs[p].children
  }

  ghost predicate ProcsOk(s: State) {
    && (forall p {:trigger ProcOk(s, p)} :: p in s.procs ==> ProcOk(s, p))
    && (forall c {:trigger c in s.ended} :: c in s.ended ==> c < s.nextPid)
  }

  ghost predicate InfosOk(s: State) {
    && (forall i {:trigger InfoOk(s, i)} :: i in s.infos ==> InfoOk(s, i))
    && (forall i {:trigger Owned(s, i)} :: i in s.infos ==> Owned(s, i))
  }

  ghost predicate OwnersOk(s: State) {
    forall p, i {:trigger OwnerOk(s, p, i)} :: p in s.procs && i in s.infos ==> OwnerOk(s, p, i)
  }

  /** No record is on two lists, and no process has two records. */
  ghost predicate Unshared(s: State) {
    && (forall p, q, i {:trigger i in s.procs[p].children, i in s.procs[q].children} ::
          p in s.procs && q in s.procs && i in s.procs[p].children && i in s.procs[q].children ==> p == q)
    && (forall i, j {:trigger s.infos[i], s.infos[j]} ::
          i in s.infos && j in s.infos && s.infos[i].pid == s.infos[j].pid ==> i == j)
  }

  ghost predicate Inv(s: State) {
    ProcsOk(s) && InfosOk(s) && OwnersOk(s) && Unshared(s)
  }
}
