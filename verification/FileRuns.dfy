/**
 The file system over whole runs of create, open, reopen, remove, close, deny and allow write.
 */
module FileRuns {
  import opened Lists
  import opened Bitmaps
  import opened FileSystems
  import opened FileSteps
  import Inodes

  // ----- filesys_create -----

  /** Both allocations succeed and the inode is written. */
  ghost predicate Made(s: State, length: Inodes.off_t, e: CreateEnv) {
    && length >= 0 && e.rootOk && e.memOk
    && var (freeMap, sector) := Allocate(s.freeMap, 1, e.sectorWritten);
      sector.Some? && Allocate(freeMap, Inodes.BytesToSectors(length as nat), e.extentWritten).1.Some?
  }

  /** A new inode: where it is, and where its contents are. */
  ghost function NewInode(s: State, length: Inodes.off_t, e: CreateEnv): (r: (Sector, DiskInode))
    requires Inv(s, None) && Made(s, length, e)
    ensures r.1.length == length && r.1.start + Sectors(r.1) <= |s.freeMap| && !InExtent(r.1, r.0)
    ensures 2 <= r.0 < |s.freeMap| && !s.freeMap[r.0]
    ensures forall k: nat {:trigger s.freeMap[k]} | InExtent(r.1, k) :: !s.freeMap[k]
  {
    AlwaysMarked(s);
    var (freeMap, sector) := Allocate(s.freeMap, 1, e.sectorWritten);
    var start := Allocate(freeMap, Inodes.BytesToSectors(length as nat), e.extentWritten).1;
    assert freeMap[sector.value];
    var d := Inodes.Extent(start.value, length);
    AllFree(freeMap, s.freeMap, d);
    (sector.value, d)
  }

  lemma AllFree(freeMap: seq<bool>, before: seq<bool>, d: DiskInode)
    requires d.length >= 0 && RunAt(freeMap, d.start, Sectors(d), false) && Grown(before, freeMap)
    ensures forall k: nat {:trigger before[k]} | InExtent(d, k) :: k < |before| && !freeMap[k] && !before[k]
  {
    forall k: nat | InExtent(d, k)
      ensures k < |before| && !freeMap[k] && !before[k]
    {
    }
  }

  /** The free map's and the root's sectors are never free. */
  lemma AlwaysMarked(s: State)
    requires Inv(s, None)
    ensures s.freeMap[0] && s.freeMap[1]
  {
    assert Live(s, 0) && Live(s, 1);
    assert Owns(s.disk, 0, 0) && Owns(s.disk, 1, 1);
  }

  /** `freeMap'` is `freeMap` with the contents of d marked too, and sector a if it is kept. */
  ghost predicate MapAfter(freeMap: seq<bool>, freeMap': seq<bool>, d: DiskInode, kept: Option<Sector>) {
    && |freeMap'| == |freeMap|
    && forall k {:trigger freeMap'[k]} | 0 <= k < |freeMap| :: freeMap'[k] <==>
      freeMap[k] || InExtent(d, k) || kept == Some(k)
  }

  /** The three ways a create can end: nothing happened, the file is there, or it has no name. */
  lemma CreateCases(s: State, name: Name, length: Inodes.off_t, e: CreateEnv)
    requires Inv(s, None) && length >= 0
    ensures var (s', ok) := Create(s, name, length, e);
      && (ok <==> Made(s, length, e) && CanAdd(s, name, e.entryWritten))
      && (!Made(s, length, e) ==> s' == s)
      && (Made(s, length, e) ==>
            var (a, d) := NewInode(s, length, e);
            && MapAfter(s.freeMap, s'.freeMap, d, if ok then Some(a) else None)
            && s' == s.(freeMap := s'.freeMap, disk := s.disk[a := d],
                        root := if ok then s.root[name := a] else s.root))
  {
    if Made(s, length, e) { CreateMade(s, name, length, e); } else { CreateNothing(s, name, length, e); }
  }

  lemma CreateNothing(s: State, name: Name, length: Inodes.off_t, e: CreateEnv)
    requires Inv(s, None) && length >= 0 && !Made(s, length, e)
    ensures Create(s, name, length, e) == (s, false)
  {
    AlwaysMarked(s);
    var (freeMap, sector) := Allocate(s.freeMap, 1, e.sectorWritten);
    if e.rootOk && sector.Some? {
      assert sector.value != 0;
      assert Create(s, name, length, e).0.freeMap == s.freeMap;
    }
  }

  lemma CreateMade(s: State, name: Name, length: Inodes.off_t, e: CreateEnv)
    requires Inv(s, None) && Made(s, length, e)
    ensures var (s', ok) := Create(s, name, length, e);
      var (a, d) := NewInode(s, length, e);
      && (ok <==> CanAdd(s, name, e.entryWritten))
      && MapAfter(s.freeMap, s'.freeMap, d, if ok then Some(a) else None)
      && s' == s.(freeMap := s'.freeMap, disk := s.disk[a := d], root := if ok then s.root[name := a] else s.root)
  {
    AlwaysMarked(s);
  }

  /** A sector that is free belongs to nobody. */
  lemma FreeUnowned(s: State, a: Sector, k: Sector)
    requires OwnershipOk(s) && k < |s.freeMap| && !s.freeMap[k]
    ensures !Live(s, k) && !(Live(s, a) && Owns(s.disk, a, k))
  {
    if Live(s, k) { assert Owns(s.disk, k, k); }
  }

  lemma CreateKeeps(s: State, name: Name, length: Inodes.off_t, e: CreateEnv)
    requires Inv(s, None) && length >= 0
    ensures Inv(Create(s, name, length, e).0, None)
  {
    CreateCases(s, name, length, e);
    var (s', ok) := Create(s, name, length, e);
    if Made(s, length, e) {
      var (a, d) := NewInode(s, length, e);
      FreeUnowned(s, a, a);
      CreatedLive(s, s', name, a, ok);
      CreatedOwners(s, s', name, a, d, ok);
      CreatedRest(s, s', name, a, d, ok);
    }
  }

  /** What a create that made an inode leaves behind. */
  ghost predicate Created(s: State, s': State, name: Name, a: Sector, d: DiskInode, ok: bool) {
    && MapAfter(s.freeMap, s'.freeMap, d, if ok then Some(a) else None)
    && s' == s.(freeMap := s'.freeMap, disk := s.disk[a := d], root := if ok then s.root[name := a] else s.root)
    && (ok ==> name !in s.root)
    && 2 <= a < |s.freeMap| && !Live(s, a) && !s.freeMap[a]
    && d.length >= 0 && d.start + Sectors(d) <= |s.freeMap| && !InExtent(d, a)
    && (forall k: nat {:trigger s.freeMap[k]} | InExtent(d, k) :: !s.freeMap[k])
  }

  lemma CreatedLive(s: State, s': State, name: Name, a: Sector, ok: bool)
    requires s'.root == (if ok then s.root[name := a] else s.root) && s'.inodes == s.inodes && (ok ==> name !in s.root)
    ensures forall b {:trigger Linked(s', b)} :: Linked(s', b) <==> Linked(s, b) || (ok && b == a)
    ensures forall b {:trigger Live(s', b)} :: Live(s', b) <==> Live(s, b) || (ok && b == a)
  {
    forall b
      ensures Linked(s', b) <==> Linked(s, b) || (ok && b == a)
    {
      if b in s.root.Values {
        var n :| n in s.root && s.root[n] == b;
        assert n in s'.root && s'.root[n] == b;
      }
      if ok && b == a { assert name in s'.root && s'.root[name] == b; }
    }
  }

  lemma CreatedOwners(s: State, s': State, name: Name, a: Sector, d: DiskInode, ok: bool)
    requires Inv(s, None) && Created(s, s', name, a, d, ok)
    ensures OwnershipOk(s')
  {
    CreatedLive(s, s', name, a, ok);
    forall b, k: nat | Live(s', b) && Owns(s'.disk, b, k)
      ensures k < |s'.freeMap| && s'.freeMap[k]
    {
      CreatedOwns(s, s', name, a, d, ok, b, k);
    }
    forall b, c, k: nat | Live(s', b) && Live(s', c) && Owns(s'.disk, b, k) && Owns(s'.disk, c, k)
      ensures b == c
    {
      CreatedOwns(s, s', name, a, d, ok, b, k);
      CreatedOwns(s, s', name, a, d, ok, c, k);
    }
  }

  /** A sector owned afterwards was owned by the same inode before, or is one of the new file's. */
  lemma CreatedOwns(s: State, s': State, name: Name, a: Sector, d: DiskInode, ok: bool, b: Sector, k: Sector)
    requires Inv(s, None) && Created(s, s', name, a, d, ok) && Live(s', b)
    ensures Owns(s'.disk, b, k) <==> if b == a then k == a || InExtent(d, k) else Owns(s.disk, b, k)
    ensures Owns(s'.disk, b, k) ==> k < |s.freeMap| && s'.freeMap[k]
    ensures Owns(s'.disk, b, k) ==> (b == a <==> !s.freeMap[k])
  {
    CreatedLive(s, s', name, a, ok);
    assert b == a ==> ok;
    if b != a {
      assert Live(s, b) && (Owns(s'.disk, b, k) <==> Owns(s.disk, b, k));
    }
  }

  lemma CreatedRest(s: State, s': State, name: Name, a: Sector, d: DiskInode, ok: bool)
    requires Inv(s, None) && Created(s, s', name, a, d, ok)
    ensures NamesOk(s') && OpenOk(s', None)
  {
    CreatedLive(s, s', name, a, ok);
    forall n | n in s.root ensures s.root[n] != a {
      assert Linked(s, s.root[n]);
    }
    forall q | q in s'.inodes
      ensures InodeOk(s', q, None)
    {
      assert InodeOk(s, q, None);
      assert IsOpen(s, s.inodes[q].sector);
    }
  }

  // ----- leaks -----

  /** `filesys_create` leaves a marked sector without an owner in exactly one case: the inode was made with
      some contents and the name could not be added. */
  lemma LeakIff(s: State, name: Name, length: Inodes.off_t, e: CreateEnv)
    requires Inv(s, None) && length >= 0 && Tight(s)
    ensures Tight(Create(s, name, length, e).0) <==>
      !(Made(s, length, e) && !CanAdd(s, name, e.entryWritten) && length > 0)
  {
    CreateCases(s, name, length, e);
    CreateKeeps(s, name, length, e);
    var (s', ok) := Create(s, name, length, e);
    if Made(s, length, e) {
      var (a, d) := NewInode(s, length, e);
      FreeUnowned(s, a, a);
      assert Created(s, s', name, a, d, ok);
      CreatedLive(s, s', name, a, ok);
      if ok || length == 0 {
        forall k: nat | k < |s'.freeMap| && s'.freeMap[k]
          ensures Possessed(s', k)
        {
          CreatedPossessed(s, s', name, a, d, ok, k);
        }
      } else {
        assert InExtent(d, d.start) && s'.freeMap[d.start];
        forall b | Live(s', b) ensures !Owns(s'.disk, b, d.start) {
          CreatedOwns(s, s', name, a, d, ok, b, d.start);
        }
        assert !Possessed(s', d.start);
      }
    }
  }

  lemma CreatedPossessed(s: State, s': State, name: Name, a: Sector, d: DiskInode, ok: bool, k: nat)
    requires Inv(s, None) && Created(s, s', name, a, d, ok) && Tight(s) && (ok || d.length == 0)
    requires k < |s'.freeMap| && s'.freeMap[k]
    ensures Possessed(s', k)
  {
    CreatedLive(s, s', name, a, ok);
    if s.freeMap[k] {
      assert Possessed(s, k);
      var b :| Live(s, b) && Owns(s.disk, b, k);
      assert Live(s', b) && Owns(s'.disk, b, k);
    } else {
      assert ok && Live(s', a) && Owns(s'.disk, a, k);
    }
  }

  // ----- steps and runs -----

  datatype Step =
    | CreateStep(name: Name, length: Inodes.off_t, env: CreateEnv)
    | OpenStep(name: Name, rootOk: bool, inodeMem: bool, fileMem: bool)
    | ReopenStep(f: Ptr, fileMem: bool)
    | RemoveStep(name: Name, rootOk: bool, inodeMem: bool, entryWritten: bool)
    | CloseStep(f: Ptr)
    | DenyWriteStep(f: Ptr)
    | AllowWriteStep(f: Ptr)

  /** What the calls demand: sizes are not negative, and handles are open. */
  predicate Enabled(s: State, e: Step) {
    match e
    case CreateStep(_, length, _) => length >= 0
    case OpenStep(_, _, _, _) => true
    case RemoveStep(_, _, _, _) => true
    case ReopenStep(f, _) => f in s.files
    case CloseStep(f) => f in s.files
    case DenyWriteStep(f) => f in s.files
    case AllowWriteStep(f) => f in s.files
  }

  ghost function Next(s: State, e: Step): State
    requires Inv(s, None) && Enabled(s, e)
  {
    match e
    case CreateStep(name, length, env) => Create(s, name, length, env).0
    case OpenStep(name, rootOk, inodeMem, fileMem) => Open(s, name, rootOk, inodeMem, fileMem).0
    case ReopenStep(f, fileMem) => Reopen(s, f, fileMem).0
    case RemoveStep(name, rootOk, inodeMem, entryWritten) => Remove(s, name, rootOk, inodeMem, entryWritten).0
    case CloseStep(f) => Close(s, f)
    case DenyWriteStep(f) => FileDenyWrite(s, f)
    case AllowWriteStep(f) => FileAllowWrite(s, f)
  }

  /** The one way to lose sectors. */
  ghost predicate Leaks(s: State, e: Step) {
    e.CreateStep? && Made(s, e.length, e.env) && !CanAdd(s, e.name, e.env.entryWritten) && e.length > 0
  }

  /** What a step other than a create does to the map: it frees what belongs to inodes that died, and no more. */
  ghost predicate Settles(s: State, s': State) {
    && Inv(s', None) && s'.disk == s.disk && |s'.freeMap| == |s.freeMap|
    && (forall a {:trigger Live(s', a)} :: Live(s', a) ==> Live(s, a))
    && (forall k: nat {:trigger s'.freeMap[k]} | k < |s.freeMap| :: s'.freeMap[k] <==> s.freeMap[k] && !Died(s, s', k))
  }

  ghost predicate Died(s: State, s': State, k: nat) {
    exists a {:trigger Owns(s.disk, a, k)} :: Live(s, a) && !Live(s', a) && Owns(s.disk, a, k)
  }

  /** A step that keeps the map and every live inode settles. */
  lemma SameSettles(s: State, s': State)
    requires Inv(s', None) && s'.disk == s.disk && s'.freeMap == s.freeMap
    requires forall a {:trigger Live(s', a)} {:trigger Live(s, a)} :: Live(s', a) <==> Live(s, a)
    ensures Settles(s, s')
  {
  }

  /** `inode_close` settles, from a state with the same live inodes as the one the call began in. */
  lemma CloseSettles(s: State, s1: State, p: Ptr)
    requires Inv(s, None) && Inv(s1, Some(p)) && s1.disk == s.disk && s1.freeMap == s.freeMap
    requires forall a {:trigger Live(s1, a)} {:trigger Live(s, a)} :: Live(s1, a) <==> Live(s, a)
    ensures CanClose(s1, p) && Settles(s, InodeClose(s1, p))
  {
    InodeCloseKeeps(s1, p);
    var s', r := InodeClose(s1, p), s1.inodes[p];
    var last := r.openCnt == 1 && r.removed;
    forall a ensures Live(s', a) <==> Live(s, a) && !(last && a == r.sector) {
      ClosedLive(s1, p, a);
    }
    assert Live(s1, r.sector) by { assert IsOpen(s1, r.sector); }
    forall k: nat | k < |s.freeMap|
      ensures s'.freeMap[k] <==> s.freeMap[k] && !Died(s, s', k)
    {
      if last && Owns(s.disk, r.sector, k) { assert Died(s, s', k); }
    }
  }

  lemma ClosedLive(s: State, p: Ptr, a: Sector)
    requires Inv(s, Some(p))
    ensures CanClose(s, p)
    ensures Live(InodeClose(s, p), a) <==>
      Live(s, a) && !(s.inodes[p].openCnt == 1 && s.inodes[p].removed && a == s.inodes[p].sector)
  {
    InodeCloseKeeps(s, p);
    if s.inodes[p].openCnt == 1 {
      CloseLive(s, p, a);
    } else {
      SameInodeSectors(s, InodeClose(s, p), a);
    }
  }

  lemma SameInodeSectors(s: State, s': State, a: Sector)
    requires s'.root == s.root && s'.inodes.Keys == s.inodes.Keys
    requires forall q {:trigger s'.inodes[q]} :: q in s'.inodes ==> s'.inodes[q].sector == s.inodes[q].sector
    ensures Live(s', a) <==> Live(s, a)
  {
    if IsOpen(s, a) {
      var q :| q in s.inodes && s.inodes[q].sector == a;
      assert s'.inodes[q].sector == a;
    }
    if IsOpen(s', a) {
      var q :| q in s'.inodes && s'.inodes[q].sector == a;
      assert s.inodes[q].sector == a;
    }
  }

  /** Opening a linked sector's inode brings nothing to life. */
  lemma OpenLive(s: State, sector: Sector, memOk: bool, a: Sector)
    requires Inv(s, None) && Linked(s, sector)
    ensures sector in s.disk
    ensures Live(InodeOpen(s, sector, memOk).0, a) <==> Live(s, a)
  {
    InodeOpenKeeps(s, sector, memOk);
    FreshPtr(s);
    var s' := InodeOpen(s, sector, memOk).0;
    if IsOpen(s, a) {
      var q :| q in s.inodes && s.inodes[q].sector == a;
      assert s'.inodes[q].sector == a;
    }
    if IsOpen(s', a) {
      var q :| q in s'.inodes && s'.inodes[q].sector == a;
      assert q in s.inodes ==> s.inodes[q].sector == a;
    }
  }

  /** `file_open`, with or without memory for the handle. */
  lemma FileOpenSettles(s: State, s1: State, p: Ptr, memOk: bool)
    requires Inv(s, None) && Inv(s1, Some(p)) && s1.disk == s.disk && s1.freeMap == s.freeMap
    requires forall a {:trigger Live(s1, a)} {:trigger Live(s, a)} :: Live(s1, a) <==> Live(s, a)
    ensures CanClose(s1, p) && Settles(s, FileOpen(s1, p, memOk).0)
  {
    FileOpenKeeps(s1, p, memOk);
    if memOk {
      forall a ensures Live(FileOpen(s1, p, true).0, a) <==> Live(s1, a) {
        SameInodeSectors(s1, FileOpen(s1, p, true).0, a);
      }
    } else {
      CloseSettles(s, s1, p);
    }
  }

  lemma StepSettles(s: State, e: Step)
    requires Inv(s, None) && Enabled(s, e) && !e.CreateStep?
    ensures Settles(s, Next(s, e))
  {
    match e
    case OpenStep(name, rootOk, inodeMem, fileMem) =>
      if rootOk && name in s.root { OpenSettles(s, name, inodeMem, fileMem); }
    case ReopenStep(f, fileMem) => ReopenSettles(s, f, fileMem);
    case RemoveStep(name, rootOk, inodeMem, entryWritten) =>
      if rootOk && name in s.root { RemoveSettles(s, name, inodeMem, entryWritten); }
    case CloseStep(f) => FileCloseSettles(s, f);
    case DenyWriteStep(f) => DenyAllowSettles(s, f);
    case AllowWriteStep(f) => DenyAllowSettles(s, f);
  }

  lemma ReopenSettles(s: State, f: Ptr, fileMem: bool)
    requires Inv(s, None) && f in s.files
    ensures Settles(s, Reopen(s, f, fileMem).0)
  {
    var p := s.files[f].inode;
    ReopenedKeeps(s, p);
    forall a ensures Live(Reopened(s, p), a) <==> Live(s, a) { SameInodeSectors(s, Reopened(s, p), a); }
    FileOpenSettles(s, Reopened(s, p), p, fileMem);
  }

  lemma FileCloseSettles(s: State, f: Ptr)
    requires Inv(s, None) && f in s.files
    ensures Settles(s, Close(s, f))
  {
    FileDroppedKeeps(s, f);
    forall a ensures Live(FileDropped(s, f), a) <==> Live(s, a) { SameInodeSectors(s, FileDropped(s, f), a); }
    CloseSettles(s, FileDropped(s, f), s.files[f].inode);
  }

  lemma DenyAllowSettles(s: State, f: Ptr)
    requires Inv(s, None) && f in s.files
    ensures s.files[f].inode in s.inodes && Settles(s, FileDenyWrite(s, f)) && Settles(s, FileAllowWrite(s, f))
  {
    DenyAllowKeeps(s, f);
    forall a ensures Live(FileDenyWrite(s, f), a) <==> Live(s, a) { SameInodeSectors(s, FileDenyWrite(s, f), a); }
    SameSettles(s, FileDenyWrite(s, f));
    forall a ensures Live(FileAllowWrite(s, f), a) <==> Live(s, a) { SameInodeSectors(s, FileAllowWrite(s, f), a); }
    SameSettles(s, FileAllowWrite(s, f));
  }

  lemma OpenSettles(s: State, name: Name, inodeMem: bool, fileMem: bool)
    requires Inv(s, None) && name in s.root
    ensures Settles(s, Open(s, name, true, inodeMem, fileMem).0)
  {
    InodeOpenKeeps(s, s.root[name], inodeMem);
    var (s1, p) := InodeOpen(s, s.root[name], inodeMem);
    forall a ensures Live(s1, a) <==> Live(s, a) { OpenLive(s, s.root[name], inodeMem, a); }
    if p.Some? { FileOpenSettles(s, s1, p.value, fileMem); }
  }

  lemma RemoveSettles(s: State, name: Name, inodeMem: bool, entryWritten: bool)
    requires Inv(s, None) && name in s.root
    ensures Settles(s, Remove(s, name, true, inodeMem, entryWritten).0)
  {
    InodeOpenKeeps(s, s.root[name], inodeMem);
    var (s1, p) := InodeOpen(s, s.root[name], inodeMem);
    forall a ensures Live(s1, a) <==> Live(s, a) { OpenLive(s, s.root[name], inodeMem, a); }
    if p.Some? {
      UnlinkedKeeps(s1, name, p.value);
      CloseSettles(s, if entryWritten then Unlinked(s1, name, p.value) else s1, p.value);
    }
  }

  lemma StepKeeps(s: State, e: Step)
    requires Inv(s, None) && Enabled(s, e)
    ensures Inv(Next(s, e), None)
  {
    if e.CreateStep? { CreateKeeps(s, e.name, e.length, e.env); } else { StepSettles(s, e); }
  }

  /** Every step keeps every marked sector owned, but for the one way to lose them. */
  lemma StepTight(s: State, e: Step)
    requires Inv(s, None) && Enabled(s, e) && Tight(s)
    ensures Tight(Next(s, e)) <==> !Leaks(s, e)
  {
    if e.CreateStep? {
      LeakIff(s, e.name, e.length, e.env);
    } else {
      StepSettles(s, e);
      SettledTight(s, Next(s, e));
    }
  }

  lemma SettledTight(s: State, s': State)
    requires Settles(s, s') && Tight(s)
    ensures Tight(s')
  {
    forall k: nat | k < |s'.freeMap| && s'.freeMap[k]
      ensures Possessed(s', k)
    {
      assert Possessed(s, k);
      var a :| Live(s, a) && Owns(s.disk, a, k);
      assert Live(s', a) && Owns(s'.disk, a, k);
    }
  }

  /** A lost sector stays lost: marked, and nobody's. */
  lemma LostForEver(s: State, e: Step, k: nat)
    requires Inv(s, None) && Enabled(s, e) && k < |s.freeMap| && s.freeMap[k] && !Possessed(s, k)
    ensures k < |Next(s, e).freeMap| && Next(s, e).freeMap[k] && !Possessed(Next(s, e), k)
  {
    var s' := Next(s, e);
    if e.CreateStep? {
      CreateKeeps(s, e.name, e.length, e.env);
      CreateCases(s, e.name, e.length, e.env);
      if Made(s, e.length, e.env) {
        var ok := Create(s, e.name, e.length, e.env).1;
        var (a, d) := NewInode(s, e.length, e.env);
        FreeUnowned(s, a, a);
        assert Created(s, s', e.name, a, d, ok);
        CreatedLive(s, s', e.name, a, ok);
        forall b | Live(s', b) ensures !Owns(s'.disk, b, k) {
          CreatedOwns(s, s', e.name, a, d, ok, b, k);
        }
      }
    } else {
      StepSettles(s, e);
    }
  }

  // ----- whole runs -----

  ghost predicate IsRun(run: seq<State>, steps: seq<Step>) {
    && |run| == |steps| + 1 && Inv(run[0], None)
    && forall k {:trigger steps[k]} :: 0 <= k < |steps| ==>
         Enabled(run[k], steps[k]) && (Inv(run[k], None) ==> run[k + 1] == Next(run[k], steps[k]))
  }

  lemma {:induction false} RunKeeps(run: seq<State>, steps: seq<Step>, k: nat)
    requires IsRun(run, steps) && k < |run|
    ensures Inv(run[k], None)
  {
    if k > 0 {
      RunKeeps(run, steps, k - 1);
      assert Enabled(run[k - 1], steps[k - 1]);
      StepKeeps(run[k - 1], steps[k - 1]);
    }
  }

  /** Marked is owned throughout a run that begins so and in which no create loses sectors. */
  lemma {:induction false} RunTight(run: seq<State>, steps: seq<Step>, k: nat)
    requires IsRun(run, steps) && k < |run| && Tight(run[0])
    requires forall j {:trigger steps[j]} :: 0 <= j < k ==> !Leaks(run[j], steps[j])
    ensures Tight(run[k])
  {
    if k > 0 {
      RunTight(run, steps, k - 1);
      RunKeeps(run, steps, k - 1);
      assert Enabled(run[k - 1], steps[k - 1]) && !Leaks(run[k - 1], steps[k - 1]);
      StepTight(run[k - 1], steps[k - 1]);
    }
  }

  // ----- what it means for a file -----

  /** An inode is in use exactly as long as it is linked or some handle is open on it. */
  lemma LiveMeans(s: State, a: Sector)
    requires Inv(s, None)
    ensures Live(s, a) <==>
      Linked(s, a) || exists f {:trigger s.files[f]} ::
        f in s.files && s.files[f].inode in s.inodes && s.inodes[s.files[f].inode].sector == a
  {
    if IsOpen(s, a) {
      var p :| p in s.inodes && s.inodes[p].sector == a;
      assert InodeOk(s, p, None);
      var f :| f in Handles(s.files, p);
      assert s.files[f].inode == p;
    }
  }

  /** Writing inside one open file's extent leaves every other open file's bytes alone. */
  lemma OthersKeepTheirBytes(s: State, p: Ptr, q: Ptr, d: Inodes.Sectors, d': Inodes.Sectors)
    requires Inv(s, None) && p in s.inodes && q in s.inodes && p != q
    requires Inodes.Formatted(d) && Inodes.Formatted(d') && |d| == |s.freeMap| == |d'|
    requires s.inodes[p].data.length >= 0
    requires var lo := s.inodes[p].data.start * 512;
      forall i: nat {:trigger Inodes.DiskByte(d', i)}
        | i < |d| * 512 && !(lo <= i < lo + s.inodes[p].data.length as int) ::
        Inodes.DiskByte(d', i) == Inodes.DiskByte(d, i)
    ensures Inodes.OnDisk(s.inodes[q].data, d) && Inodes.OnDisk(s.inodes[q].data, d')
    ensures Inodes.FileBytes(d', s.inodes[q].data) == Inodes.FileBytes(d, s.inodes[q].data)
  {
    var x, y := s.inodes[p].data, s.inodes[q].data;
    var a, b := s.inodes[p].sector, s.inodes[q].sector;
    assert InodeOk(s, p, None) && InodeOk(s, q, None);
    assert IsOpen(s, a) && IsOpen(s, b) && Live(s, a) && Live(s, b);
    if x.length > 0 && y.length > 0 {
      assert Owns(s.disk, a, x.start) && Owns(s.disk, b, y.start);
      if x.start <= y.start < x.start + Sectors(x) { assert Owns(s.disk, a, y.start); }
      if y.start <= x.start < y.start + Sectors(y) { assert Owns(s.disk, b, x.start); }
    }
    if x.length == 0 {
      Inodes.OtherFileUntouched(d, d', y, y.start * 512 + y.length as int, y.start * 512 + y.length as int);
    } else if y.length > 0 {
      Inodes.OtherFileUntouched(d, d', y, x.start * 512, x.start * 512 + x.length as int);
    }
  }

  // ----- formatting -----

  /** `do_format` and `free_map_open` on a device of n sectors: the free map's file and an empty root with
      room for 16 names, whose inodes are in sectors 0 and 1; the free map's file is left open.
      None where the source panics. */
  ghost function Format(n: nat): Option<State>
    requires 2 <= n < 0x1000_0000
  {
    var blank := State(seq(n, i => i < 2), map[], map[], 16, map[], [], 0, map[], 0);
    var (s1, ok1) := InodeCreate(blank, FREE_MAP_SECTOR, (n + 31) / 32 * 4, true, true);
    var (s2, ok2) := InodeCreate(s1, ROOT_DIR_SECTOR, 16 * 20, true, true);
    if !ok1 || !ok2 then None
    else
      FormattedKeeps(n, blank, s1, s2);
      InodeOpenKeeps(s2, FREE_MAP_SECTOR, true);
      var (s3, p) := InodeOpen(s2, FREE_MAP_SECTOR, true);
      FileOpenKeeps(s3, p.value, true);
      Some(FileOpen(s3, p.value, true).0)
  }

  ghost predicate TwoInodes(n: nat, blank: State, s1: State, s2: State) {
    && 2 <= n < 0x1000_0000
    && blank == State(seq(n, i => i < 2), map[], map[], 16, map[], [], 0, map[], 0)
    && InodeCreate(blank, FREE_MAP_SECTOR, (n + 31) / 32 * 4, true, true) == (s1, true)
    && InodeCreate(s1, ROOT_DIR_SECTOR, 16 * 20, true, true) == (s2, true)
  }

  lemma FormattedKeeps(n: nat, blank: State, s1: State, s2: State)
    requires TwoInodes(n, blank, s1, s2)
    ensures Inv(s2, None) && Tight(s2)
  {
    assert forall k {:trigger blank.freeMap[k]} | 0 <= k < n :: blank.freeMap[k] <==> k < 2;
    var d0, d1 := s1.disk[0], s2.disk[1];
    assert forall a {:trigger Live(s2, a)} :: Live(s2, a) <==> a == 0 || a == 1;
    assert s2.disk == map[0 := d0, 1 := d1];
    FormattedMap(n, blank, s1, s2);
    forall k: nat | k < |s2.freeMap| && s2.freeMap[k]
      ensures Possessed(s2, k)
    {
      assert Live(s2, 0) && Live(s2, 1);
      assert Owns(s2.disk, 0, k) || Owns(s2.disk, 1, k);
    }
  }

  /** The map after both: each inode's contents are where it was free. */
  lemma FormattedMap(n: nat, blank: State, s1: State, s2: State)
    requires TwoInodes(n, blank, s1, s2)
    ensures 0 in s1.disk && 1 in s2.disk && |s1.freeMap| == n == |s2.freeMap|
    ensures s1.disk[0].length >= 0 && s2.disk[1].length >= 0
    ensures s1.disk[0].start + Sectors(s1.disk[0]) <= n && s2.disk[1].start + Sectors(s2.disk[1]) <= n
    ensures forall k: nat {:trigger s2.freeMap[k]} | k < n ::
      s2.freeMap[k] <==> k < 2 || InExtent(s1.disk[0], k) || InExtent(s2.disk[1], k)
    ensures forall k: nat {:trigger InExtent(s1.disk[0], k)} :: InExtent(s1.disk[0], k) ==>
      2 <= k && !InExtent(s2.disk[1], k)
    ensures forall k: nat {:trigger InExtent(s2.disk[1], k)} :: InExtent(s2.disk[1], k) ==> 2 <= k
  {
    assert forall k {:trigger blank.freeMap[k]} | 0 <= k < n :: blank.freeMap[k] <==> k < 2;
    forall k: nat | InExtent(s1.disk[0], k)
      ensures 2 <= k && !InExtent(s2.disk[1], k)
    {
      assert !blank.freeMap[k] && s1.freeMap[k];
    }
    forall k: nat | InExtent(s2.disk[1], k)
      ensures 2 <= k
    {
      assert !s1.freeMap[k] && !blank.freeMap[k];
    }
  }

  /** Formatting succeeds exactly on a device of at least four sectors, and every run from the file system it
      makes keeps the invariant. */
  lemma FormatGood(n: nat)
    requires 2 <= n < 0x1000_0000
    ensures Format(n).Some? <==> n >= 4
    ensures n >= 4 ==> Inv(Format(n).value, None) && Tight(Format(n).value) && Format(n).value.root == map[]
  {
    var blank := State(seq(n, i => i < 2), map[], map[], 16, map[], [], 0, map[], 0);
    var (s1, ok1) := InodeCreate(blank, FREE_MAP_SECTOR, (n + 31) / 32 * 4, true, true);
    var (s2, ok2) := InodeCreate(s1, ROOT_DIR_SECTOR, 16 * 20, true, true);
    RoomForTwo(n, blank, s1);
    if ok1 && ok2 {
      FormattedKeeps(n, blank, s1, s2);
      FreeMapOpened(s2);
    }
  }

  /** The free map's file left open changes nothing else. */
  lemma FreeMapOpened(s: State)
    requires Inv(s, None) && Tight(s)
    ensures FREE_MAP_SECTOR in s.disk && forall p <- s.openList :: p in s.inodes
    ensures var (s1, p) := InodeOpen(s, FREE_MAP_SECTOR, true);
      && p.Some? && CanClose(s1, p.value)
      && var s2 := FileOpen(s1, p.value, true).0; Inv(s2, None) && Tight(s2) && s2.root == s.root
  {
    InodeOpenKeeps(s, FREE_MAP_SECTOR, true);
    var (s1, p) := InodeOpen(s, FREE_MAP_SECTOR, true);
    FileOpenKeeps(s1, p.value, true);
    forall a ensures Live(s1, a) <==> Live(s, a) { OpenLive(s, FREE_MAP_SECTOR, true, a); }
    FileOpenSettles(s, s1, p.value, true);
    SettledTight(s, FileOpen(s1, p.value, true).0);
  }

  /** The free map's file needs one sector for each 4096 sectors of the device, and the root one more. */
  lemma RoomForTwo(n: nat, blank: State, s1: State)
    requires 2 <= n < 0x1000_0000
    requires blank == State(seq(n, i => i < 2), map[], map[], 16, map[], [], 0, map[], 0)
    requires s1 == InodeCreate(blank, FREE_MAP_SECTOR, (n + 31) / 32 * 4, true, true).0
    ensures n >= 4 <==>
      && InodeCreate(blank, FREE_MAP_SECTOR, (n + 31) / 32 * 4, true, true).1
      && InodeCreate(s1, ROOT_DIR_SECTOR, 16 * 20, true, true).1
  {
    var cnt := Inodes.BytesToSectors((n + 31) / 32 * 4);
    FreeMapSectors(n);
    assert Inodes.BytesToSectors(16 * 20) == 1;
    var first := FirstRun(blank.freeMap, 0, cnt, false);
    if 2 + cnt <= n {
      FirstRunFinds(blank.freeMap, 0, cnt, false, 2);
      if n >= 4 { FirstRunFinds(s1.freeMap, 0, 1, false, 2 + cnt); }
    }
    if first.Some? { assert !blank.freeMap[first.value]; }
    var second := FirstRun(s1.freeMap, 0, 1, false);
    if second.Some? { assert !s1.freeMap[second.value]; }
  }

  lemma FreeMapSectors(n: nat)
    requires 2 <= n
    ensures var cnt := Inodes.BytesToSectors((n + 31) / 32 * 4);
      cnt >= 1 && (n <= 4096 ==> cnt == 1) && (n >= 4 ==> 2 + cnt < n)
  {
  }

  /** After formatting every sector behind the free map's file and the root's is free. */
  lemma FormattedFree(n: nat)
    requires 4 <= n < 0x1000_0000
    ensures Format(n).Some? && |Format(n).value.freeMap| == n
    ensures var cnt := Inodes.BytesToSectors((n + 31) / 32 * 4);
      forall k: nat {:trigger Format(n).value.freeMap[k]} :: 3 + cnt <= k < n ==> !Format(n).value.freeMap[k]
  {
    var blank := State(seq(n, i => i < 2), map[], map[], 16, map[], [], 0, map[], 0);
    var s1 := InodeCreate(blank, FREE_MAP_SECTOR, (n + 31) / 32 * 4, true, true).0;
    var s2 := InodeCreate(s1, ROOT_DIR_SECTOR, 16 * 20, true, true).0;
    RoomForTwo(n, blank, s1);
    FormattedKeeps(n, blank, s1, s2);
    FreeMapOpened(s2);
    FreeBehind(n, blank, s1, s2);
  }

  lemma FreeBehind(n: nat, blank: State, s1: State, s2: State)
    requires TwoInodes(n, blank, s1, s2)
    ensures var cnt := Inodes.BytesToSectors((n + 31) / 32 * 4);
      |s2.freeMap| == n && forall k: nat {:trigger s2.freeMap[k]} :: 3 + cnt <= k < n ==> !s2.freeMap[k]
  {
    var cnt := Inodes.BytesToSectors((n + 31) / 32 * 4);
    FormattedMap(n, blank, s1, s2);
    FirstPlaced(n, cnt, blank.freeMap);
    assert s1.freeMap == Allocate(blank.freeMap, cnt, true).0;
    assert Inodes.BytesToSectors(16 * 20) == 1;
    SecondPlaced(n, cnt, s1.freeMap);
  }

  /** The first allocation on an empty device starts at sector 2. */
  lemma FirstPlaced(n: nat, cnt: nat, freeMap: seq<bool>)
    requires |freeMap| == n && cnt > 0 && FirstRun(freeMap, 0, cnt, false).Some?
    requires forall k {:trigger freeMap[k]} | 0 <= k < n :: freeMap[k] <==> k < 2
    ensures FirstRun(freeMap, 0, cnt, false).value == 2 && 2 + cnt <= n
  {
    var at := FirstRun(freeMap, 0, cnt, false).value;
    assert !freeMap[at];
    FirstRunFinds(freeMap, 0, cnt, false, 2);
  }

  lemma SecondPlaced(n: nat, cnt: nat, freeMap: seq<bool>)
    requires |freeMap| == n && FirstRun(freeMap, 0, 1, false).Some?
    requires forall k {:trigger freeMap[k]} | 0 <= k < n :: freeMap[k] <==> k < 2 + cnt
    ensures FirstRun(freeMap, 0, 1, false).value == 2 + cnt
  {
    var at := FirstRun(freeMap, 0, 1, false).value;
    assert !freeMap[at];
    FirstRunFinds(freeMap, 0, 1, false, 2 + cnt);
  }

  /** The first create on any formatted device with two free sectors loses one of them, if its name is not
      valid: the leak is real. */
  lemma FirstCreateLeaks(n: nat)
    requires 6 <= n < 0x1000_0000
    ensures var e := CreateStep([], 1, CreateEnv(true, true, true, true, true));
      && Format(n).Some? && Inv(Format(n).value, None) && Tight(Format(n).value) && Enabled(Format(n).value, e)
      && Leaks(Format(n).value, e) && !Tight(Next(Format(n).value, e))
  {
    FormatGood(n);
    FormattedFree(n);
    FreeMapSectors(n);
    var s := Format(n).value;
    var cnt := Inodes.BytesToSectors((n + 31) / 32 * 4);
    var env := CreateEnv(true, true, true, true, true);
    assert Inodes.BytesToSectors(1) == 1;
    FirstRunFinds(s.freeMap, 0, 1, false, 3 + cnt);
    var (freeMap, sector) := Allocate(s.freeMap, 1, true);
    TwoFree(s.freeMap, freeMap, sector.value, 3 + cnt);
    assert Made(s, 1, env);
    LeakIff(s, [], 1, env);
  }

  /** Of two free sectors one is left after an allocation. */
  lemma TwoFree(before: seq<bool>, freeMap: seq<bool>, taken: nat, k: nat)
    requires k + 1 < |before| == |freeMap| && !before[k] && !before[k + 1]
    requires forall i {:trigger freeMap[i]} | 0 <= i < |before| :: freeMap[i] <==> before[i] || taken <= i < taken + 1
    ensures FirstRun(freeMap, 0, 1, false).Some?
  {
    var i := if taken == k then k + 1 else k;
    FirstRunFinds(freeMap, 0, 1, false, i);
  }
}
