/**
 Laws of the file system over every operation: which file a handle is for, how long it stands for it, and what the
 root directory holds.
 */
module FileLaws {
  import opened Lists
  import opened Bitmaps
  import opened FileSystems
  import opened FileSteps
  import opened FileRuns
  import Inodes

  /** The file that handle f stands for: its inode's sector, where its contents are, and whether f denies writes. */
  datatype View = View(sector: Sector, data: DiskInode, denyWrite: bool)

  function ViewOf(s: State, f: Ptr): View
    requires f in s.files && s.files[f].inode in s.inodes
  {
    var inode := s.inodes[s.files[f].inode];
    View(inode.sector, inode.data, s.files[f].denyWrite)
  }

  lemma HasInode(s: State, f: Ptr)
    requires Inv(s, None) && f in s.files
    ensures s.files[f].inode in s.inodes
  {
  }

  /** Handle f stands for the same file in both. */
  ghost predicate SameHandle(s: State, s': State, f: Ptr) {
    && f in s.files && s.files[f].inode in s.inodes && f in s'.files && s'.files[f].inode in s'.inodes
    && s'.files[f].inode == s.files[f].inode && ViewOf(s', f) == ViewOf(s, f)
  }

  /** In-memory inodes keep their sector and contents for as long as they are there. */
  ghost predicate SameInodes(s: State, s': State) {
    forall p {:trigger s'.inodes[p]} :: p in s.inodes && p in s'.inodes ==>
      s'.inodes[p].sector == s.inodes[p].sector && s'.inodes[p].data == s.inodes[p].data
  }

  /** s1 is on the way from s to s'. */
  lemma KeptHandle(s: State, s1: State, s': State, f: Ptr)
    requires f in s.files && s.files[f].inode in s.inodes && s.files[f].inode in s1.inodes
    requires Inv(s', None) && SameInodes(s, s1) && SameInodes(s1, s')
    requires f in s'.files && s'.files[f] == s.files[f]
    ensures SameHandle(s, s', f)
  {
    HasInode(s', f);
    var p := s.files[f].inode;
    assert s1.inodes[p].sector == s.inodes[p].sector && s'.inodes[p].sector == s1.inodes[p].sector;
  }

  // ----- inode_open and inode_close on the inodes -----

  lemma OpenInodes(s: State, sector: Sector, memOk: bool)
    requires Inv(s, None) && Linked(s, sector)
    ensures sector in s.disk
    ensures var (s', p) := InodeOpen(s, sector, memOk);
      && (p.Some? <==> IsOpen(s, sector) || memOk) && SameInodes(s, s')
      && (p.Some? ==> Inv(s', p) && s'.inodes[p.value].sector == sector && s'.inodes[p.value].data == s.disk[sector])
      && s' == s.(inodes := s'.inodes, openList := s'.openList, nextPtr := s'.nextPtr)
  {
    InodeOpenKeeps(s, sector, memOk);
    FreshPtr(s);
    FoundIff(s, sector);
    var (s', p) := InodeOpen(s, sector, memOk);
    if p.Some? { assert InodeOk(s', p.value, p); }
  }

  lemma FoundIff(s: State, sector: Sector)
    requires Inv(s, None)
    ensures FindOpen(s, s.openList, sector).Some? <==> IsOpen(s, sector)
  {
    if IsOpen(s, sector) {
      var q :| q in s.inodes && s.inodes[q].sector == sector;
      assert q in s.openList;
    }
    var found := FindOpen(s, s.openList, sector);
    if found.Some? { assert s.inodes[found.value].sector == sector; }
  }

  lemma CloseInodes(s: State, p: Ptr)
    requires Inv(s, Some(p))
    ensures CanClose(s, p) && Inv(InodeClose(s, p), None) && SameInodes(s, InodeClose(s, p))
    ensures InodeClose(s, p).files == s.files && InodeClose(s, p).root == s.root && InodeClose(s, p).disk == s.disk
  {
    InodeCloseKeeps(s, p);
  }

  /** Opening an inode and closing it again leaves everything as it was but for the next address. */
  lemma OpenThenClose(s: State, sector: Sector, memOk: bool)
    requires Inv(s, None) && Linked(s, sector)
    ensures sector in s.disk
    ensures var (s1, p) := InodeOpen(s, sector, memOk);
      p.Some? ==> CanClose(s1, p.value) && InodeClose(s1, p.value) == s.(nextPtr := s1.nextPtr)
  {
    InodeOpenKeeps(s, sector, memOk);
    FreshPtr(s);
    var (s1, p) := InodeOpen(s, sector, memOk);
    var found := FindOpen(s, s.openList, sector);
    if found.Some? {
      ReopenedIs(s, found.value);
    } else if memOk {
      MayClose(s1, s.nextPtr);
      NewThenClosed(s, s1, sector);
    }
  }

  lemma NewThenClosed(s: State, s1: State, sector: Sector)
    requires sector in s.disk && s.nextPtr !in s.inodes
    requires s1 == s.(inodes := s.inodes[s.nextPtr := OpenInode(sector, 1, false, 0, s.disk[sector])],
                      openList := [s.nextPtr] + s.openList, nextPtr := s.nextPtr + 1)
    ensures CanClose(s1, s.nextPtr) && InodeClose(s1, s.nextPtr) == s.(nextPtr := s1.nextPtr)
  {
    assert s1.inodes - {s.nextPtr} == s.inodes;
    assert s1.openList[1..] == s.openList;
  }

  // ----- each operation -----

  /** `free_map_allocate` succeeds exactly when there is a run of free sectors and the map can be written, takes the
      first such run, and otherwise changes nothing. */
  lemma AllocateIs(freeMap: seq<bool>, cnt: nat, writeOk: bool)
    ensures var (freeMap', r) := Allocate(freeMap, cnt, writeOk);
      && (r.Some? <==> writeOk && exists i {:trigger RunAt(freeMap, i, cnt, false)} :: RunAt(freeMap, i, cnt, false))
      && (r.Some? ==>
            && RunAt(freeMap, r.value, cnt, false)
            && (forall i {:trigger RunAt(freeMap, i, cnt, false)} :: RunAt(freeMap, i, cnt, false) ==> r.value <= i)
            && |freeMap'| == |freeMap|
            && forall k {:trigger freeMap'[k]} :: 0 <= k < |freeMap| ==>
                 (freeMap'[k] <==> freeMap[k] || r.value <= k < r.value + cnt))
      && (r.None? ==> freeMap' == freeMap)
  {
    forall i | RunAt(freeMap, i, cnt, false)
      ensures FirstRun(freeMap, 0, cnt, false).Some? && FirstRun(freeMap, 0, cnt, false).value <= i
    {
      FirstRunFinds(freeMap, 0, cnt, false, i);
    }
  }

  /** There is a free sector for the inode and, besides the first such, room for the contents. */
  ghost predicate Room(freeMap: seq<bool>, cnt: nat) {
    exists a, i {:trigger FirstFree(freeMap, a), RunAt(freeMap, i, cnt, false)} ::
      FirstFree(freeMap, a) && RunAt(freeMap, i, cnt, false) && !(i <= a < i + cnt)
  }

  ghost predicate FirstFree(freeMap: seq<bool>, a: int) {
    0 <= a < |freeMap| && !freeMap[a] && forall k {:trigger freeMap[k]} :: 0 <= k < a ==> freeMap[k]
  }

  lemma MadeIff(s: State, length: Inodes.off_t, e: CreateEnv)
    requires Inv(s, None) && length >= 0
    ensures Made(s, length, e) <==>
      && e.rootOk && e.memOk && e.sectorWritten && e.extentWritten
      && Room(s.freeMap, Inodes.BytesToSectors(length as nat))
  {
    var cnt := Inodes.BytesToSectors(length as nat);
    var (freeMap, sector) := Allocate(s.freeMap, 1, e.sectorWritten);
    AllocateIs(s.freeMap, 1, e.sectorWritten);
    if sector.Some? {
      FirstIsFree(s.freeMap, sector.value);
      AllocateIs(freeMap, cnt, e.extentWritten);
      RoomLeft(s.freeMap, freeMap, sector.value, cnt);
    } else if e.sectorWritten && Room(s.freeMap, cnt) {
      var a :| FirstFree(s.freeMap, a);
      assert RunAt(s.freeMap, a, 1, false);
    }
  }

  lemma FirstIsFree(freeMap: seq<bool>, a: nat)
    requires RunAt(freeMap, a, 1, false)
    requires forall i {:trigger RunAt(freeMap, i, 1, false)} :: RunAt(freeMap, i, 1, false) ==> a <= i
    ensures FirstFree(freeMap, a)
  {
    forall k | 0 <= k < a
      ensures freeMap[k]
    {
      assert !RunAt(freeMap, k, 1, false);
    }
  }

  lemma RoomLeft(freeMap: seq<bool>, freeMap': seq<bool>, a: nat, cnt: nat)
    requires FirstFree(freeMap, a) && |freeMap'| == |freeMap|
    requires forall k {:trigger freeMap'[k]} :: 0 <= k < |freeMap| ==> (freeMap'[k] <==> freeMap[k] || k == a)
    ensures Room(freeMap, cnt) <==> exists i {:trigger RunAt(freeMap', i, cnt, false)} :: RunAt(freeMap', i, cnt, false)
  {
    if Room(freeMap, cnt) {
      var b, i :| FirstFree(freeMap, b) && RunAt(freeMap, i, cnt, false) && !(i <= b < i + cnt);
      assert b == a;
      assert RunAt(freeMap', i, cnt, false);
    }
    assert freeMap'[a];
    if i :| RunAt(freeMap', i, cnt, false) {
      assert forall k {:trigger freeMap[k]} :: i <= k < i + cnt ==> !freeMap'[k];
      assert RunAt(freeMap, i, cnt, false);
    }
  }

  /** `filesys_create` succeeds exactly when the name can be added, there is room, and memory and writes do not fail.
      Then the name stands for a new inode in a sector that was free, of the length asked for, with contents in sectors
      that were free; nobody else's name, inode or handle is touched. */
  lemma CreateIs(s: State, name: Name, length: Inodes.off_t, e: CreateEnv)
    requires Inv(s, None) && length >= 0
    ensures var (s', ok) := Create(s, name, length, e);
      && (ok <==>
            && e.rootOk && e.memOk && e.sectorWritten && e.extentWritten && e.entryWritten
            && NameOk(name) && name !in s.root && |s.root| < s.capacity
            && Room(s.freeMap, Inodes.BytesToSectors(length as nat)))
      && s'.files == s.files && s'.inodes == s.inodes
      && (ok ==>
            && name in s'.root && s'.root == s.root[name := s'.root[name]]
            && FirstFree(s.freeMap, s'.root[name]) && s'.root[name] in s'.disk
            && var a, d := s'.root[name], s'.disk[s'.root[name]];
              && s'.disk == s.disk[a := d] && d.length == length
              && (forall k: nat {:trigger InExtent(d, k)} :: InExtent(d, k) ==>
                    k < |s.freeMap| && !s.freeMap[k] && k != a)
              && |s'.freeMap| == |s.freeMap|
              && (forall k {:trigger s'.freeMap[k]} :: 0 <= k < |s.freeMap| ==>
                    (s'.freeMap[k] <==> s.freeMap[k] || k == a || InExtent(d, k))))
      && (!ok ==> s'.root == s.root)
  {
    CreateCases(s, name, length, e);
    MadeIff(s, length, e);
    if Made(s, length, e) {
      AllocateIs(s.freeMap, 1, e.sectorWritten);
      FirstIsFree(s.freeMap, NewInode(s, length, e).0);
    }
  }

  /** f is a new handle on p, for the file in the given sector; all other handles are what they were. */
  ghost predicate NewHandle(s: State, s': State, f: Ptr, p: Ptr, sector: Sector) {
    && f !in s.files && s'.files == s.files[f := File(p, false)] && p in s'.inodes
    && sector in s.disk && ViewOf(s', f) == View(sector, s.disk[sector], false)
    && forall g <- s.files :: SameHandle(s, s', g)
  }

  /** `filesys_open` gives a handle exactly when the name exists and there is memory, and then it is a new one for
      the file of that name; the directory, the disk and all other handles stay. */
  lemma OpenIs(s: State, name: Name, rootOk: bool, inodeMem: bool, fileMem: bool)
    requires Inv(s, None)
    ensures var (s', f) := Open(s, name, rootOk, inodeMem, fileMem);
      && (f.Some? <==> rootOk && name in s.root && (IsOpen(s, s.root[name]) || inodeMem) && fileMem)
      && (f.Some? ==> NewHandle(s, s', f.value, s'.files[f.value].inode, s.root[name]))
      && s'.root == s.root && s'.disk == s.disk && s'.freeMap == s.freeMap
      && (f.None? ==> s' == s.(nextPtr := s'.nextPtr))
  {
    if rootOk && name in s.root {
      OpenInodes(s, s.root[name], inodeMem);
      var (s1, p) := InodeOpen(s, s.root[name], inodeMem);
      if p.Some? {
        FileOpenKeeps(s1, p.value, fileMem);
        if fileMem {
          OpenedHandle(s, s1, p.value, s.root[name]);
        } else {
          OpenThenClose(s, s.root[name], inodeMem);
        }
      }
    }
  }

  /** The handle that `file_open` makes of a reference. */
  lemma OpenedHandle(s: State, s1: State, p: Ptr, sector: Sector)
    requires Inv(s, None) && Inv(s1, Some(p)) && SameInodes(s, s1) && s1.files == s.files && s1.nextFile == s.nextFile
    requires sector in s.disk && s1.inodes[p].sector == sector && s1.inodes[p].data == s.disk[sector]
    ensures CanClose(s1, p)
    ensures NewHandle(s, FileOpen(s1, p, true).0, s.nextFile, p, sector)
  {
    FileOpenKeeps(s1, p, true);
    FreshPtr(s);
    var s' := FileOpen(s1, p, true).0;
    forall g | g in s.files
      ensures SameHandle(s, s', g)
    {
      HasInode(s, g);
      KeptHandle(s, s, s', g);
    }
  }

  /** `file_reopen`: a second handle on the same inode, exactly if there is memory for it. */
  lemma ReopenIs(s: State, f: Ptr, fileMem: bool)
    requires Inv(s, None) && f in s.files
    ensures s.files[f].inode in s.inodes
    ensures var (s', g) := Reopen(s, f, fileMem);
      && (g.Some? <==> fileMem)
      && (g.Some? ==> NewHandle(s, s', g.value, s.files[f].inode, s.inodes[s.files[f].inode].sector))
      && s'.root == s.root && s'.disk == s.disk && s'.freeMap == s.freeMap && (g.None? ==> s' == s)
  {
    HasInode(s, f);
    var p := s.files[f].inode;
    ReopenedIs(s, p);
    if fileMem { OpenedHandle(s, Reopened(s, p), p, s.inodes[p].sector); }
  }

  /** One more reference, and giving it back. */
  lemma ReopenedIs(s: State, p: Ptr)
    requires Inv(s, None) && p in s.inodes
    ensures s.inodes[p].sector in s.disk && s.inodes[p].data == s.disk[s.inodes[p].sector]
    ensures Inv(Reopened(s, p), Some(p)) && SameInodes(s, Reopened(s, p))
    ensures CanClose(Reopened(s, p), p) && InodeClose(Reopened(s, p), p) == s
  {
    assert InodeOk(s, p, None);
    ReopenedKeeps(s, p);
    MayClose(Reopened(s, p), p);
    assert s.inodes[p := s.inodes[p]] == s.inodes;
  }

  /** `file_close`: that handle is gone, and every other stands for the same file. */
  lemma CloseIs(s: State, f: Ptr)
    requires Inv(s, None) && f in s.files
    ensures var s' := Close(s, f);
      && s'.files.Keys == s.files.Keys - {f} && s'.root == s.root && s'.disk == s.disk
      && forall g <- s'.files :: SameHandle(s, s', g)
  {
    FileDroppedKeeps(s, f);
    DroppedIs(s, f);
    var p, s1 := s.files[f].inode, FileDropped(s, f);
    CloseInodes(s1, p);
    ClosedHandles(s, s1, InodeClose(s1, p), f);
  }

  lemma DroppedIs(s: State, f: Ptr)
    requires f in s.files && s.files[f].inode in s.inodes
    ensures var s1 := FileDropped(s, f);
      s1.files == s.files - {f} && s1.root == s.root && s1.disk == s.disk && s1.inodes.Keys == s.inodes.Keys
      && SameInodes(s, s1)
  {
  }

  lemma ClosedHandles(s: State, s1: State, s': State, f: Ptr)
    requires Inv(s, None) && Inv(s', None) && s1.files == s.files - {f} == s'.files
    requires s1.inodes.Keys == s.inodes.Keys && SameInodes(s, s1) && SameInodes(s1, s')
    ensures forall g <- s'.files :: SameHandle(s, s', g)
  {
    forall g | g in s'.files
      ensures SameHandle(s, s', g)
    {
      HasInode(s, g);
      HasInode(s', g);
      KeptHandle(s, s1, s', g);
    }
  }

  /** `file_deny_write` and `file_allow_write`: that handle denies, or no longer does; the inode counts it; nothing else
      differs. */
  lemma DenyIs(s: State, f: Ptr, on: bool)
    requires Inv(s, None) && f in s.files
    ensures s.files[f].inode in s.inodes
    ensures var s' := if on then FileDenyWrite(s, f) else FileAllowWrite(s, f);
      && s'.files == s.files[f := File(s.files[f].inode, on)] && s'.root == s.root && s'.disk == s.disk
      && s'.freeMap == s.freeMap && s'.inodes.Keys == s.inodes.Keys && SameInodes(s, s')
      && (on ==> s'.inodes[s.files[f].inode].denyWriteCnt > 0)
  {
    DenyAllowKeeps(s, f);
    if on {
      DenyFields(s, f);
      Denied(FileDenyWrite(s, f), f);
    } else {
      AllowFields(s, f);
    }
  }

  lemma DenyFields(s: State, f: Ptr)
    requires f in s.files && s.files[f].inode in s.inodes
    ensures var s' := FileDenyWrite(s, f);
      && s'.files == s.files[f := File(s.files[f].inode, true)] && s'.root == s.root && s'.disk == s.disk
      && s'.freeMap == s.freeMap && s'.inodes.Keys == s.inodes.Keys && SameInodes(s, s')
  {
    assert s.files[f].denyWrite ==> s.files == s.files[f := s.files[f]];
  }

  lemma AllowFields(s: State, f: Ptr)
    requires f in s.files && s.files[f].inode in s.inodes
    ensures var s' := FileAllowWrite(s, f);
      && s'.files == s.files[f := File(s.files[f].inode, false)] && s'.root == s.root && s'.disk == s.disk
      && s'.freeMap == s.freeMap && s'.inodes.Keys == s.inodes.Keys && SameInodes(s, s')
  {
    assert !s.files[f].denyWrite ==> s.files == s.files[f := s.files[f]];
  }

  lemma Denied(s: State, f: Ptr)
    requires Inv(s, None) && f in s.files && s.files[f].denyWrite
    ensures s.files[f].inode in s.inodes && s.inodes[s.files[f].inode].denyWriteCnt > 0
  {
    HasInode(s, f);
    DeniedIff(s, s.files[f].inode);
  }

  /** Writes to an open file are denied exactly while some handle on it denies them. */
  lemma DeniedIff(s: State, p: Ptr)
    requires Inv(s, None) && p in s.inodes
    ensures s.inodes[p].denyWriteCnt >= 0
    ensures s.inodes[p].denyWriteCnt != 0 <==>
      exists f {:trigger s.files[f]} :: f in s.files && s.files[f].inode == p && s.files[f].denyWrite
  {
    assert InodeOk(s, p, None);
    if Denials(s.files, p) != {} {
      var f :| f in Denials(s.files, p);
      assert s.files[f].denyWrite;
    }
    forall f | f in s.files && s.files[f].inode == p && s.files[f].denyWrite
      ensures Denials(s.files, p) != {}
    {
      assert f in Denials(s.files, p);
    }
  }

  /** `filesys_remove` succeeds exactly when the name exists, its inode can be opened and its entry written; then the
      name is gone and no other, and every handle, also one on that file, stands for what it did. */
  lemma RemoveIs(s: State, name: Name, rootOk: bool, inodeMem: bool, entryWritten: bool)
    requires Inv(s, None)
    ensures var (s', ok) := Remove(s, name, rootOk, inodeMem, entryWritten);
      && (ok <==> rootOk && name in s.root && (IsOpen(s, s.root[name]) || inodeMem) && entryWritten)
      && s'.root == (if ok then s.root - {name} else s.root) && s'.disk == s.disk && s'.files == s.files
      && (!ok ==> s' == s.(nextPtr := s'.nextPtr))
      && forall g <- s.files :: SameHandle(s, s', g)
  {
    forall g | g in s.files ensures SameHandle(s, s, g) { HasInode(s, g); }
    if rootOk && name in s.root {
      OpenInodes(s, s.root[name], inodeMem);
      var (s1, p) := InodeOpen(s, s.root[name], inodeMem);
      if p.Some? {
        if !entryWritten { OpenThenClose(s, s.root[name], inodeMem); }
        RemovedHandles(s, name, s1, p.value, entryWritten);
      }
    }
  }

  lemma RemovedHandles(s: State, name: Name, s1: State, p: Ptr, entryWritten: bool)
    requires Inv(s, None) && name in s.root && Inv(s1, Some(p)) && SameInodes(s, s1) && s1.files == s.files
    requires s1.root == s.root && s1.disk == s.disk && s1.inodes[p].sector == s.root[name]
    ensures var s2 := if entryWritten then Unlinked(s1, name, p) else s1;
      && CanClose(s2, p) && InodeClose(s2, p).files == s.files && InodeClose(s2, p).disk == s.disk
      && InodeClose(s2, p).root == (if entryWritten then s.root - {name} else s.root)
      && forall g <- s.files :: SameHandle(s, InodeClose(s2, p), g)
  {
    UnlinkedKeeps(s1, name, p);
    var s2 := if entryWritten then Unlinked(s1, name, p) else s1;
    CloseInodes(s2, p);
    var s' := InodeClose(s2, p);
    forall g | g in s.files
      ensures SameHandle(s, s', g)
    {
      HasInode(s, g);
      KeptHandle(s, s, s', g);
    }
  }

  // ----- over every operation -----

  /** What becomes of handle f in operation e: it stands for its file until its own close; only its own deny and
      allow change whether it denies writes. */
  lemma HandleNext(s: State, e: Step, f: Ptr)
    requires Inv(s, None) && Enabled(s, e) && f in s.files
    ensures s.files[f].inode in s.inodes
    ensures var s' := Next(s, e);
      && (f in s'.files <==> e != CloseStep(f))
      && (f in s'.files ==>
            && s'.files[f].inode == s.files[f].inode && s'.files[f].inode in s'.inodes
            && ViewOf(s', f) == ViewOf(s, f).(denyWrite :=
                 if e == DenyWriteStep(f) then true
                 else if e == AllowWriteStep(f) then false else s.files[f].denyWrite))
  {
    HasInode(s, f);
    match e
    case CreateStep(name, length, env) => CreateHandles(s, name, length, env);
    case OpenStep(name, rootOk, inodeMem, fileMem) =>
      OpenIs(s, name, rootOk, inodeMem, fileMem);
      if Open(s, name, rootOk, inodeMem, fileMem).1.Some? { assert SameHandle(s, Next(s, e), f); }
    case ReopenStep(g, fileMem) =>
      ReopenIs(s, g, fileMem);
      if fileMem { assert SameHandle(s, Next(s, e), f); }
    case RemoveStep(name, rootOk, inodeMem, entryWritten) =>
      RemoveIs(s, name, rootOk, inodeMem, entryWritten);
      assert SameHandle(s, Next(s, e), f);
    case CloseStep(g) =>
      CloseIs(s, g);
      if f != g { assert f in Next(s, e).files && SameHandle(s, Next(s, e), f); }
    case DenyWriteStep(g) => DenyIs(s, g, true);
    case AllowWriteStep(g) => DenyIs(s, g, false);
  }

  lemma CreateHandles(s: State, name: Name, length: int, env: CreateEnv)
    requires Inv(s, None) && 0 <= length < 0x8000_0000
    ensures Create(s, name, length, env).0.files == s.files && Create(s, name, length, env).0.inodes == s.inodes
  {
    CreateCases(s, name, length, env);
  }

  /** A handle appears only by an open or a reopen that succeeds: for the file of that name, or for the same file. */
  lemma HandleBorn(s: State, e: Step, f: Ptr)
    requires Inv(s, None) && Enabled(s, e) && f !in s.files && f in Next(s, e).files
    ensures Next(s, e).files[f].inode in Next(s, e).inodes
    ensures match e
      case OpenStep(name, _, _, _) =>
        && name in s.root && s.root[name] in s.disk
        && ViewOf(Next(s, e), f) == View(s.root[name], s.disk[s.root[name]], false)
      case ReopenStep(g, _) =>
        g in s.files && s.files[g].inode in s.inodes && ViewOf(Next(s, e), f) == ViewOf(s, g).(denyWrite := false)
      case _ => false
  {
    StepKeeps(s, e);
    HasInode(Next(s, e), f);
    match e
    case CreateStep(name, length, env) => CreateHandles(s, name, length, env);
    case OpenStep(name, rootOk, inodeMem, fileMem) => OpenIs(s, name, rootOk, inodeMem, fileMem);
    case ReopenStep(g, fileMem) =>
      ReopenIs(s, g, fileMem);
      assert InodeOk(s, s.files[g].inode, None);
    case RemoveStep(name, rootOk, inodeMem, entryWritten) => RemoveIs(s, name, rootOk, inodeMem, entryWritten);
    case CloseStep(g) => CloseIs(s, g);
    case DenyWriteStep(g) => DenyIs(s, g, true);
    case AllowWriteStep(g) => DenyIs(s, g, false);
  }

  /** Names come and go only by a create and a remove that succeed. */
  lemma DirectoryNext(s: State, e: Step)
    requires Inv(s, None) && Enabled(s, e)
    ensures match e
      case CreateStep(name, length, env) =>
        if Made(s, length, env) && CanAdd(s, name, env.entryWritten)
        then Next(s, e).root == s.root[name := NewInode(s, length, env).0] else Next(s, e).root == s.root
      case RemoveStep(name, rootOk, inodeMem, entryWritten) =>
        Next(s, e).root ==
        if rootOk && name in s.root && (IsOpen(s, s.root[name]) || inodeMem) && entryWritten
        then s.root - {name} else s.root
      case _ => Next(s, e).root == s.root
  {
    match e
    case CreateStep(name, length, env) => CreateCases(s, name, length, env);
    case OpenStep(name, rootOk, inodeMem, fileMem) => OpenIs(s, name, rootOk, inodeMem, fileMem);
    case ReopenStep(g, fileMem) => ReopenIs(s, g, fileMem);
    case RemoveStep(name, rootOk, inodeMem, entryWritten) => RemoveIs(s, name, rootOk, inodeMem, entryWritten);
    case CloseStep(g) => CloseIs(s, g);
    case DenyWriteStep(g) => DenyIs(s, g, true);
    case AllowWriteStep(g) => DenyIs(s, g, false);
  }

  /** Over a whole run: from the step after an open to its close, a handle is for the file that had the name when it was
      opened, whatever becomes of the name meanwhile. */
  lemma {:induction false} HandleStays(run: seq<State>, steps: seq<Step>, k: nat, m: nat, f: Ptr)
    requires IsRun(run, steps) && k <= m < |run| && f in run[k].files
    requires forall j {:trigger steps[j]} :: k <= j < m ==> steps[j] != CloseStep(f)
    ensures f in run[m].files
    ensures run[k].files[f].inode in run[k].inodes && run[m].files[f].inode in run[m].inodes
    ensures ViewOf(run[m], f).sector == ViewOf(run[k], f).sector && ViewOf(run[m], f).data == ViewOf(run[k], f).data
  {
    RunKeeps(run, steps, k);
    HasInode(run[k], f);
    if k < m {
      HandleStays(run, steps, k, m - 1, f);
      RunKeeps(run, steps, m - 1);
      assert Enabled(run[m - 1], steps[m - 1]);
      HandleNext(run[m - 1], steps[m - 1], f);
    }
  }
}
