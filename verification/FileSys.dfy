/**
 The same operations as code over a free map, a list of open inodes and handles that are updated in place
 (proj1/src/filesys/free-map.c:27-50, inode.c:72-195, file.c:17-130, filesys.c:45-91).
 */
module FileSys {
  import opened Lists
  import opened Bitmaps
  import opened FileSystems
  import opened FileSteps
  import FileLaws
  import FileRuns
  import Inodes

  class FileSystem {
    var freeMap: seq<bool>
    var disk: map<Sector, DiskInode>
    var root: map<Name, Sector>
    var capacity: nat
    var inodes: map<Ptr, OpenInode>
    var openInodes: seq<Ptr>
    var nextPtr: Ptr
    var files: map<Ptr, File>
    var nextFile: Ptr

    ghost function Now(): State
      reads this
    {
      State(freeMap, disk, root, capacity, inodes, openInodes, nextPtr, files, nextFile)
    }

    // ----- free-map.c -----

    method FreeMapAllocate(cnt: nat, writeOk: bool) returns (ok: bool, sector: Sector)
      modifies this`freeMap
      ensures var (freeMap', r) := Allocate(old(freeMap), cnt, writeOk);
        freeMap == freeMap' && ok == r.Some? && sector == if ok then r.value else 0
    {
      var r := Scan(freeMap, 0, cnt, false);
      ScanIsFirstRun(freeMap, 0, cnt, false, r);
      sector := 0;
      if r.Some? {
        freeMap := SetMultiple(freeMap, r.value, cnt, true);
        if !writeOk {
          freeMap := SetMultiple(freeMap, r.value, cnt, false);
          assert freeMap == old(freeMap);
        } else {
          sector := r.value;
        }
      }
      ok := r.Some? && writeOk;
    }

    method FreeMapRelease(sector: Sector, cnt: nat)
      requires RunAt(freeMap, sector, cnt, true)
      modifies this`freeMap
      ensures freeMap == Release(old(freeMap), sector, cnt)
    {
      freeMap := SetMultiple(freeMap, sector, cnt, false);
    }

    // ----- inode.c -----

    method CreateInode(sector: Sector, length: Inodes.off_t, memOk: bool, writeOk: bool) returns (success: bool)
      requires length >= 0
      modifies this`freeMap, this`disk
      ensures (Now(), success) == InodeCreate(old(Now()), sector, length, memOk, writeOk)
    {
      success := false;
      if memOk {
        var sectors := Inodes.BytesToSectors(length as nat);
        var ok, start := FreeMapAllocate(sectors, writeOk);
        if ok {
          disk := disk[sector := Inodes.Extent(start, length)];
          success := true;
        }
      }
    }

    method OpenAt(sector: Sector, memOk: bool) returns (r: Option<Ptr>)
      requires sector in disk && forall p <- openInodes :: p in inodes
      modifies this`inodes, this`openInodes, this`nextPtr
      ensures (Now(), r) == InodeOpen(old(Now()), sector, memOk)
    {
      var k := 0;
      while k < |openInodes|
        invariant 0 <= k <= |openInodes|
        invariant FindOpen(Now(), openInodes, sector) == FindOpen(Now(), openInodes[k..], sector)
      {
        var p := openInodes[k];
        if inodes[p].sector == sector {
          inodes := inodes[p := inodes[p].(openCnt := inodes[p].openCnt + 1)];
          return Some(p);
        }
        assert openInodes[k..][1..] == openInodes[k + 1..];
        k := k + 1;
      }
      if !memOk { return None; }
      var p := LoadInode(sector);
      r := Some(p);
    }

    method LoadInode(sector: Sector) returns (p: Ptr)
      requires sector in disk
      modifies this`inodes, this`openInodes, this`nextPtr
      ensures p == old(nextPtr) && nextPtr == p + 1 && openInodes == [p] + old(openInodes)
      ensures inodes == old(inodes)[p := OpenInode(sector, 1, false, 0, disk[sector])]
    {
      p := nextPtr;
      openInodes := [p] + openInodes;
      inodes := inodes[p := OpenInode(sector, 1, false, 0, disk[sector])];
      nextPtr := p + 1;
    }

    method CloseInode(p: Ptr)
      requires CanClose(Now(), p)
      modifies this`inodes, this`openInodes, this`freeMap
      ensures Now() == InodeClose(old(Now()), p)
    {
      var inode := inodes[p];
      inodes := inodes[p := inode.(openCnt := inode.openCnt - 1)];
      if inodes[p].openCnt == 0 {
        openInodes := Without(openInodes, p);
        if inode.removed {
          FreeMapRelease(inode.sector, 1);
          FreeMapRelease(inode.data.start, Sectors(inode.data));
        }
        inodes := inodes - {p};
        assert inodes == old(inodes) - {p};
      }
    }

    // ----- file.c -----

    method OpenFile(p: Ptr, memOk: bool) returns (f: Option<Ptr>)
      requires Inv(Now(), Some(p))
      modifies this
      ensures CanClose(old(Now()), p) && (Now(), f) == FileOpen(old(Now()), p, memOk) && Inv(Now(), None)
    {
      FileOpenKeeps(Now(), p, memOk);
      if memOk {
        f := Some(nextFile);
        files, nextFile := files[nextFile := File(p, false)], nextFile + 1;
      } else {
        CloseInode(p);
        f := None;
      }
    }

    method ReopenFile(f: Ptr, memOk: bool) returns (r: Option<Ptr>)
      requires Inv(Now(), None) && f in files
      modifies this
      ensures (Now(), r) == Reopen(old(Now()), f, memOk) && Inv(Now(), None)
    {
      var p := files[f].inode;
      ReopenedKeeps(Now(), p);
      inodes := inodes[p := inodes[p].(openCnt := inodes[p].openCnt + 1)];
      r := OpenFile(p, memOk);
    }

    /** The source's assertions are the preconditions here and in the next method; under the invariant they
        hold, and the invariant is kept (FileSteps.DenyAllowKeeps). */
    method DenyWrite(f: Ptr)
      requires f in files && files[f].inode in inodes
      requires var inode := inodes[files[f].inode]; !files[f].denyWrite ==> inode.denyWriteCnt + 1 <= inode.openCnt
      modifies this`files, this`inodes
      ensures Now() == FileDenyWrite(old(Now()), f)
    {
      if !files[f].denyWrite {
        var p := files[f].inode;
        files := files[f := files[f].(denyWrite := true)];
        inodes := inodes[p := inodes[p].(denyWriteCnt := inodes[p].denyWriteCnt + 1)];
        assert inodes[p].denyWriteCnt <= inodes[p].openCnt;
      }
    }

    method AllowWrite(f: Ptr)
      requires f in files && files[f].inode in inodes
      requires var inode := inodes[files[f].inode]; files[f].denyWrite ==> 0 < inode.denyWriteCnt <= inode.openCnt
      modifies this`files, this`inodes
      ensures Now() == FileAllowWrite(old(Now()), f)
    {
      if files[f].denyWrite {
        var p := files[f].inode;
        files := files[f := files[f].(denyWrite := false)];
        inodes := inodes[p := inodes[p].(denyWriteCnt := inodes[p].denyWriteCnt - 1)];
      }
    }

    method CloseFile(f: Ptr)
      requires Inv(Now(), None) && f in files
      modifies this
      ensures Now() == Close(old(Now()), f) && Inv(Now(), None)
    {
      CloseReady(Now(), f);
      var p := files[f].inode;
      AllowWrite(f);
      files := files - {f};
      assert Now() == FileDropped(old(Now()), f);
      CloseInode(p);
    }

    // ----- filesys.c -----

    method FilesysCreate(name: Name, initialSize: Inodes.off_t, e: CreateEnv) returns (success: bool)
      requires Inv(Now(), None) && initialSize >= 0
      modifies this
      ensures (Now(), success) == Create(old(Now()), name, initialSize, e) && Inv(Now(), None)
    {
      FileRuns.CreateKeeps(Now(), name, initialSize, e);
      success := false;
      if !e.rootOk { return; }
      var ok, inodeSector := FreeMapAllocate(1, e.sectorWritten);
      if ok {
        success := CreateInode(inodeSector, initialSize, e.memOk, e.extentWritten);
        if success { success := DirAdd(name, inodeSector, e.entryWritten); }
      }
      if !success && inodeSector != 0 { FreeMapRelease(inodeSector, 1); }
    }

    method DirAdd(name: Name, sector: Sector, entryWritten: bool) returns (ok: bool)
      modifies this`root
      ensures ok <==> CanAdd(old(Now()), name, entryWritten)
      ensures root == if ok then old(root)[name := sector] else old(root)
    {
      ok := CanAddNow(name, entryWritten);
      if ok { root := root[name := sector]; }
    }

    predicate CanAddNow(name: Name, entryWritten: bool)
      reads this
    {
      NameOk(name) && name !in root && |root| < capacity && entryWritten
    }

    method FilesysOpen(name: Name, rootOk: bool, inodeMem: bool, fileMem: bool) returns (f: Option<Ptr>)
      requires Inv(Now(), None)
      modifies this
      ensures (Now(), f) == Open(old(Now()), name, rootOk, inodeMem, fileMem) && Inv(Now(), None)
      ensures f.Some? <==> rootOk && name in old(root) && (IsOpen(old(Now()), old(root)[name]) || inodeMem) && fileMem
      ensures f.Some? ==>
        FileLaws.NewHandle(old(Now()), Now(), f.value, files[f.value].inode, old(root)[name])
    {
      FileLaws.OpenIs(Now(), name, rootOk, inodeMem, fileMem);
      if !rootOk || name !in root { return None; }
      InodeOpenKeeps(Now(), root[name], inodeMem);
      var p := OpenAt(root[name], inodeMem);
      if p.None? { return None; }
      f := OpenFile(p.value, fileMem);
    }

    method FilesysRemove(name: Name, rootOk: bool, inodeMem: bool, entryWritten: bool) returns (success: bool)
      requires Inv(Now(), None)
      modifies this
      ensures (Now(), success) == Remove(old(Now()), name, rootOk, inodeMem, entryWritten) && Inv(Now(), None)
    {
      if !rootOk || name !in root { return false; }
      RemoveReady(Now(), name, inodeMem, entryWritten);
      var p := OpenAt(root[name], inodeMem);
      if p.None? { return false; }
      if entryWritten {
        root := root - {name};
        inodes := inodes[p.value := inodes[p.value].(removed := true)];
      }
      CloseInode(p.value);
      success := entryWritten;
    }
  }

  /** What `file_close` relies on, all of it from the invariant. */
  lemma CloseReady(s: State, f: Ptr)
    requires Inv(s, None) && f in s.files
    ensures s.files[f].inode in s.inodes
    ensures var inode := s.inodes[s.files[f].inode]; s.files[f].denyWrite ==> 0 < inode.denyWriteCnt <= inode.openCnt
    ensures CanClose(FileDropped(s, f), s.files[f].inode) && Inv(Close(s, f), None)
    ensures Close(s, f) == InodeClose(FileDropped(s, f), s.files[f].inode)
  {
    DenyAllowKeeps(s, f);
    FileDroppedKeeps(s, f);
    InodeCloseKeeps(FileDropped(s, f), s.files[f].inode);
  }

  /** What `filesys_remove` relies on for a name that is there. */
  lemma RemoveReady(s: State, name: Name, inodeMem: bool, entryWritten: bool)
    requires Inv(s, None) && name in s.root
    ensures s.root[name] in s.disk && forall p <- s.openList :: p in s.inodes
    ensures var (s1, p) := InodeOpen(s, s.root[name], inodeMem);
      if p.None? then Remove(s, name, true, inodeMem, entryWritten) == (s1, false)
      else
        p.value in s1.inodes
        && var s2 := if entryWritten then Unlinked(s1, name, p.value) else s1;
          && CanClose(s2, p.value)
          && Remove(s, name, true, inodeMem, entryWritten) == (InodeClose(s2, p.value), entryWritten)
    ensures Inv(Remove(s, name, true, inodeMem, entryWritten).0, None)
  {
    InodeOpenKeeps(s, s.root[name], inodeMem);
    var (s1, p) := InodeOpen(s, s.root[name], inodeMem);
    if p.Some? {
      UnlinkedKeeps(s1, name, p.value);
      InodeCloseKeeps(if entryWritten then Unlinked(s1, name, p.value) else s1, p.value);
    }
  }
}
