/**
 Every file system operation keeps the ownership invariant, and what it does to the free map.
 */
module FileSteps {
  import opened Lists
  import opened Bitmaps
  import opened FileSystems

  // ----- inode_open, inode_close, inode_remove -----

  /** No sector comes alive, and neither the map nor an inode on disk changes: ownership is kept. */
  lemma SameOwners(s: State, s': State)
    requires OwnershipOk(s) && s'.freeMap == s.freeMap && s'.disk == s.disk
    requires forall a {:trigger Linked(s', a)} :: Linked(s', a) ==> Live(s, a)
    requires forall p {:trigger s'.inodes[p]} :: p in s'.inodes ==> Live(s, s'.inodes[p].sector)
    ensures OwnershipOk(s')
  {
    assert forall a {:trigger Live(s', a)} :: Live(s', a) ==> Live(s, a);
  }

  lemma ReopenedKeeps(s: State, p: Ptr)
    requires Inv(s, None) && p in s.inodes
    ensures Inv(Reopened(s, p), Some(p))
  {
    var s' := Reopened(s, p);
    assert forall q {:trigger s'.inodes[q]} :: q in s'.inodes ==> s'.inodes[q].sector == s.inodes[q].sector;
    SameOwners(s, s');
    forall q | q in s'.inodes
      ensures InodeOk(s', q, Some(p))
    {
      assert InodeOk(s, q, None);
    }
  }

  lemma InodeOpenKeeps(s: State, sector: Sector, memOk: bool)
    requires Inv(s, None) && Linked(s, sector)
    ensures Live(s, sector) && sector in s.disk
    ensures var (s', r) := InodeOpen(s, sector, memOk);
      if r.Some? then Inv(s', r) && s'.inodes[r.value].sector == sector && !s'.inodes[r.value].removed
      else s' == s
    ensures var s' := InodeOpen(s, sector, memOk).0;
      s'.freeMap == s.freeMap && s'.disk == s.disk && s'.root == s.root && s'.files == s.files
  {
    assert Live(s, sector);
    var (s', r) := InodeOpen(s, sector, memOk);
    var found := FindOpen(s, s.openList, sector);
    if found.Some? {
      ReopenedKeeps(s, found.value);
      assert InodeOk(s', found.value, found);
    } else if memOk {
      OpenedKeeps(s, sector);
    }
  }

  lemma OpenedKeeps(s: State, sector: Sector)
    requires Inv(s, None) && Linked(s, sector) && sector in s.disk && FindOpen(s, s.openList, sector) == None
    ensures Inv(InodeOpen(s, sector, true).0, Some(s.nextPtr))
  {
    var s', p := InodeOpen(s, sector, true).0, s.nextPtr;
    FreshPtr(s);
    PushDistinct(p, s.openList);
    SameOwners(s, s');
    forall q | q in s'.inodes
      ensures InodeOk(s', q, Some(p))
    {
      assert q in s.inodes ==> InodeOk(s, q, None);
    }
  }

  /** The next address is not in use: nothing is open there. */
  lemma FreshPtr(s: State)
    requires Inv(s, None)
    ensures s.nextPtr !in s.inodes && s.nextFile !in s.files
    ensures Handles(s.files, s.nextPtr) == {} && Denials(s.files, s.nextPtr) == {}
  {
    assert s.nextPtr in s.inodes ==> InodeOk(s, s.nextPtr, None);
  }

  // ----- inode_close -----

  /** The last close of a removed file may release its sectors: palloc-like assertions of the map hold. */
  lemma MayClose(s: State, p: Ptr)
    requires Inv(s, Some(p))
    ensures CanClose(s, p)
  {
    assert InodeOk(s, p, Some(p));
    var r := s.inodes[p];
    assert Live(s, r.sector) && Owns(s.disk, r.sector, r.sector);
    forall k: nat | r.data.start <= k < r.data.start + Sectors(r.data)
      ensures s.freeMap[k] && k != r.sector
    {
      assert Owns(s.disk, r.sector, k);
    }
    ExtentMarked(s.freeMap, r.sector, r.data.start, Sectors(r.data));
  }

  lemma ExtentMarked(freeMap: seq<bool>, sector: Sector, start: nat, cnt: nat)
    requires sector < |freeMap| && freeMap[sector] && start + cnt <= |freeMap|
    requires forall k: nat {:trigger freeMap[k]} | start <= k < start + cnt :: freeMap[k] && k != sector
    ensures RunAt(freeMap, sector, 1, true) && RunAt(Release(freeMap, sector, 1), start, cnt, true)
  {
  }

  /** What a close that deletes the file leaves of the map: exactly the file's own sectors are freed. */
  lemma ReleasedMap(s: State, p: Ptr, k: nat)
    requires CanClose(s, p) && s.inodes[p].openCnt == 1 && s.inodes[p].removed && k < |s.freeMap|
    requires s.inodes[p].sector in s.disk && s.inodes[p].data == s.disk[s.inodes[p].sector]
    ensures |InodeClose(s, p).freeMap| == |s.freeMap|
    ensures InodeClose(s, p).freeMap[k] <==> s.freeMap[k] && !Owns(s.disk, s.inodes[p].sector, k)
  {
  }

  lemma CloseMiddle(s: State, p: Ptr)
    requires Inv(s, Some(p)) && s.inodes[p].openCnt != 1
    ensures CanClose(s, p) && Inv(InodeClose(s, p), None)
  {
    var s' := InodeClose(s, p);
    assert InodeOk(s, p, Some(p));
    assert forall q {:trigger s'.inodes[q]} :: q in s'.inodes ==> s'.inodes[q].sector == s.inodes[q].sector;
    SameOwners(s, s');
    forall q | q in s'.inodes
      ensures InodeOk(s', q, None)
    {
      assert InodeOk(s, q, Some(p));
    }
  }

  /** After the last close the inode is on no list and no handle knows it. */
  lemma CloseLast(s: State, p: Ptr)
    requires Inv(s, Some(p)) && s.inodes[p].openCnt == 1
    ensures CanClose(s, p) && OpenOk(InodeClose(s, p), None) && NamesOk(InodeClose(s, p))
  {
    MayClose(s, p);
    var s' := InodeClose(s, p);
    assert InodeOk(s, p, Some(p));
    assert Handles(s.files, p) == {};
    WithoutContents(s.openList, p);
    forall q | q in s'.inodes
      ensures InodeOk(s', q, None)
    {
      assert InodeOk(s, q, Some(p));
    }
    forall f | f in s'.files
      ensures s'.files[f].inode in s'.inodes
    {
      assert f !in Handles(s.files, p);
    }
  }

  /** ... and what it owned has no owner any more, if it was removed. */
  lemma CloseLive(s: State, p: Ptr, a: Sector)
    requires Inv(s, Some(p)) && s.inodes[p].openCnt == 1
    ensures CanClose(s, p)
    ensures Live(InodeClose(s, p), a) <==> Live(s, a) && !(s.inodes[p].removed && a == s.inodes[p].sector)
  {
    MayClose(s, p);
    var s' := InodeClose(s, p);
    assert InodeOk(s, p, Some(p));
    if IsOpen(s, a) {
      var q :| q in s.inodes && s.inodes[q].sector == a;
      if q != p { assert s'.inodes[q].sector == a; }
    }
    if IsOpen(s', a) {
      var q :| q in s'.inodes && s'.inodes[q].sector == a;
      assert s.inodes[q].sector == a && q != p;
    }
  }

  /** Closing keeps the invariant; the map changes only when a removed file is closed for the last time. */
  lemma InodeCloseKeeps(s: State, p: Ptr)
    requires Inv(s, Some(p))
    ensures CanClose(s, p) && Inv(InodeClose(s, p), None)
    ensures var s', last := InodeClose(s, p), s.inodes[p].openCnt == 1 && s.inodes[p].removed;
      && |s'.freeMap| == |s.freeMap| && s'.disk == s.disk && s'.root == s.root && s'.files == s.files
      && (forall k {:trigger s'.freeMap[k]} | 0 <= k < |s.freeMap| ::
            s'.freeMap[k] <==> s.freeMap[k] && !(last && Owns(s.disk, s.inodes[p].sector, k)))
  {
    assert InodeOk(s, p, Some(p));
    if s.inodes[p].openCnt != 1 {
      CloseMiddle(s, p);
    } else {
      CloseLast(s, p);
      var s' := InodeClose(s, p);
      forall a ensures Live(s', a) <==> Live(s, a) && !(s.inodes[p].removed && a == s.inodes[p].sector) {
        CloseLive(s, p, a);
      }
      if s.inodes[p].removed {
        forall k: nat | k < |s.freeMap|
          ensures s'.freeMap[k] <==> s.freeMap[k] && !Owns(s.disk, s.inodes[p].sector, k)
        {
          ReleasedMap(s, p, k);
        }
        assert Live(s, s.inodes[p].sector);
      }
    }
  }

  // ----- handles -----

  /** `file_open` turns the reference into a handle. */
  lemma FileOpenKeeps(s: State, p: Ptr, memOk: bool)
    requires Inv(s, Some(p))
    ensures CanClose(s, p) && Inv(FileOpen(s, p, memOk).0, None)
    ensures FileOpen(s, p, memOk).1.Some? <==> memOk
  {
    InodeCloseKeeps(s, p);
    if memOk { HandleKeeps(s, p); }
  }

  lemma HandleKeeps(s: State, p: Ptr)
    requires Inv(s, Some(p)) && CanClose(s, p)
    ensures Inv(FileOpen(s, p, true).0, None)
  {
    var s', f := FileOpen(s, p, true).0, s.nextFile;
    assert f !in s.files;
    SameOwners(s, s');
    forall q | q in s'.inodes
      ensures InodeOk(s', q, None)
    {
      assert InodeOk(s, q, Some(p));
      HandleAdded(s.files, f, File(p, false), q);
    }
  }

  lemma HandleAdded(files: map<Ptr, File>, f: Ptr, file: File, q: Ptr)
    requires f !in files && !file.denyWrite
    ensures |Handles(files[f := file], q)| == |Handles(files, q)| + if file.inode == q then 1 else 0
    ensures Denials(files[f := file], q) == Denials(files, q)
  {
    assert Handles(files[f := file], q) == Handles(files, q) + if file.inode == q then {f} else {};
  }

  lemma HandleDropped(files: map<Ptr, File>, f: Ptr, q: Ptr)
    requires f in files && !files[f].denyWrite
    ensures |Handles(files - {f}, q)| == |Handles(files, q)| - if files[f].inode == q then 1 else 0
    ensures Denials(files - {f}, q) == Denials(files, q)
  {
    assert Handles(files - {f}, q) == Handles(files, q) - if files[f].inode == q then {f} else {};
  }

  lemma DenialFlipped(files: map<Ptr, File>, f: Ptr, on: bool, q: Ptr)
    requires f in files && files[f].denyWrite != on
    ensures var files' := files[f := files[f].(denyWrite := on)];
      && Handles(files', q) == Handles(files, q)
      && |Denials(files', q)| == |Denials(files, q)| + if files[f].inode != q then 0 else if on then 1 else -1
  {
    var files' := files[f := files[f].(denyWrite := on)];
    var mine := if files[f].inode == q then {f} else {};
    assert Denials(files', q) == if on then Denials(files, q) + mine else Denials(files, q) - mine;
    assert on ==> mine !! Denials(files, q);
    assert !on ==> mine <= Denials(files, q);
  }

  /** Denying and allowing writes keep the count of denials, and the assertions in both hold. */
  lemma DenyAllowKeeps(s: State, f: Ptr)
    requires Inv(s, None) && f in s.files
    ensures s.files[f].inode in s.inodes
    ensures Inv(FileDenyWrite(s, f), None) && Inv(FileAllowWrite(s, f), None)
    ensures var p := s.files[f].inode;
      && (!s.files[f].denyWrite ==> s.inodes[p].denyWriteCnt + 1 <= s.inodes[p].openCnt)
      && (s.files[f].denyWrite ==> 0 < s.inodes[p].denyWriteCnt <= s.inodes[p].openCnt)
  {
    var p := s.files[f].inode;
    assert InodeOk(s, p, None);
    FlipKeeps(s, FileDenyWrite(s, f), f, true);
    FlipKeeps(s, FileAllowWrite(s, f), f, false);
    var h, d := Handles(s.files, p), Denials(s.files, p);
    assert d <= h && f in h;
    if s.files[f].denyWrite {
      assert f in d;
      SubsetSmaller(d, h);
    } else {
      assert d <= h - {f};
      SubsetSmaller(d, h - {f});
    }
  }

  lemma {:induction false} SubsetSmaller(a: set<Ptr>, b: set<Ptr>)
    requires a <= b
    ensures |a| <= |b|
  {
    if a != {} {
      var x :| x in a;
      SubsetSmaller(a - {x}, b - {x});
    }
  }

  lemma FlipKeeps(s: State, s': State, f: Ptr, on: bool)
    requires Inv(s, None) && f in s.files && s.files[f].inode in s.inodes
    requires s' == if on then FileDenyWrite(s, f) else FileAllowWrite(s, f)
    ensures Inv(s', None)
  {
    if s.files[f].denyWrite != on {
      assert forall q {:trigger s'.inodes[q]} :: q in s'.inodes ==> s'.inodes[q].sector == s.inodes[q].sector;
      SameOwners(s, s');
      FlipInodes(s, s', f, on);
    }
  }

  lemma FlipInodes(s: State, s': State, f: Ptr, on: bool)
    requires OpenOk(s, None) && f in s.files && s.files[f].inode in s.inodes && s.files[f].denyWrite != on
    requires s' == if on then FileDenyWrite(s, f) else FileAllowWrite(s, f)
    ensures OpenOk(s', None)
  {
    FlipRest(s, s', f, on);
    forall q | q in s'.inodes
      ensures InodeOk(s', q, None)
    {
      FlipInode(s, s', f, on, q);
    }
  }

  lemma FlipRest(s: State, s': State, f: Ptr, on: bool)
    requires ListOk(s) && OneInodeEach(s) && FilesOk(s)
    requires f in s.files && s.files[f].inode in s.inodes && s.files[f].denyWrite != on
    requires s' == if on then FileDenyWrite(s, f) else FileAllowWrite(s, f)
    ensures ListOk(s') && OneInodeEach(s') && FilesOk(s')
  {
    assert s'.inodes.Keys == s.inodes.Keys;
    assert forall q {:trigger s'.inodes[q]} :: q in s'.inodes ==> s'.inodes[q].sector == s.inodes[q].sector;
  }

  lemma FlipInode(s: State, s': State, f: Ptr, on: bool, q: Ptr)
    requires OpenOk(s, None) && f in s.files && s.files[f].inode in s.inodes && s.files[f].denyWrite != on
    requires s' == (if on then FileDenyWrite(s, f) else FileAllowWrite(s, f)) && q in s'.inodes
    ensures InodeOk(s', q, None)
  {
    assert InodeOk(s, q, None);
    DenialFlipped(s.files, f, on, q);
    assert forall a {:trigger Linked(s', a)} :: Linked(s', a) <==> Linked(s, a);
  }

  /** `file_close` up to `inode_close`: the handle's reference is now the operation's. */
  lemma FileDroppedKeeps(s: State, f: Ptr)
    requires Inv(s, None) && f in s.files
    ensures s.files[f].inode in s.inodes && Inv(FileDropped(s, f), Some(s.files[f].inode))
  {
    FlipKeeps(s, FileAllowWrite(s, f), f, false);
    var s1, s', p := FileAllowWrite(s, f), FileDropped(s, f), s.files[f].inode;
    SameOwners(s1, s');
    forall q | q in s'.inodes
      ensures InodeOk(s', q, Some(p))
    {
      assert InodeOk(s1, q, None);
      HandleDropped(s1.files, f, q);
    }
  }

  // ----- filesys_remove -----

  /** Clearing the entry and marking the inode: the file now lives only as long as it is open. */
  lemma UnlinkedKeeps(s: State, name: Name, p: Ptr)
    requires Inv(s, Some(p)) && name in s.root && s.inodes[p].sector == s.root[name]
    ensures Inv(Unlinked(s, name, p), Some(p))
    ensures forall a {:trigger Live(Unlinked(s, name, p), a)} :: Live(Unlinked(s, name, p), a) <==> Live(s, a)
  {
    var s' := Unlinked(s, name, p);
    assert forall q {:trigger s'.inodes[q]} :: q in s'.inodes ==> s'.inodes[q].sector == s.inodes[q].sector;
    forall a
      ensures Linked(s', a) <==> Linked(s, a) && a != s.root[name]
    {
      UnlinkedName(s, name, p, a);
    }
    SameOwners(s, s');
    forall q | q in s'.inodes
      ensures InodeOk(s', q, Some(p))
    {
      assert InodeOk(s, q, Some(p));
    }
    forall a
      ensures Live(s', a) <==> Live(s, a)
    {
      if IsOpen(s, a) {
        var q :| q in s.inodes && s.inodes[q].sector == a;
        assert s'.inodes[q].sector == a;
      }
      assert s'.inodes[p].sector == s.root[name];
    }
  }

  lemma UnlinkedName(s: State, name: Name, p: Ptr, a: Sector)
    requires NamesOk(s) && name in s.root && p in s.inodes
    ensures Linked(Unlinked(s, name, p), a) <==> Linked(s, a) && a != s.root[name]
  {
    var s' := Unlinked(s, name, p);
    if a in s.root.Values && a != s.root[name] {
      var n :| n in s.root && s.root[n] == a;
      assert n in s'.root && s'.root[n] == a;
    }
    if a in s'.root.Values {
      var n :| n in s'.root && s'.root[n] == a;
      assert n in s.root && s.root[n] == a;
    }
  }

  // ----- the calls made of these -----

  /** `filesys_open`. */
  ghost function Open(s: State, name: Name, rootOk: bool, inodeMem: bool, fileMem: bool): (State, Option<Ptr>)
    requires Inv(s, None)
  {
    if !rootOk || name !in s.root then (s, None)
    else
      InodeOpenKeeps(s, s.root[name], inodeMem);
      var (s1, p) := InodeOpen(s, s.root[name], inodeMem);
      if p.None? then (s1, None)
      else
        FileOpenKeeps(s1, p.value, fileMem);
        FileOpen(s1, p.value, fileMem)
  }

  /** `file_reopen`. */
  ghost function Reopen(s: State, f: Ptr, fileMem: bool): (State, Option<Ptr>)
    requires Inv(s, None) && f in s.files
  {
    var p := s.files[f].inode;
    ReopenedKeeps(s, p);
    FileOpenKeeps(Reopened(s, p), p, fileMem);
    FileOpen(Reopened(s, p), p, fileMem)
  }

  /** `file_close`. */
  ghost function Close(s: State, f: Ptr): State
    requires Inv(s, None) && f in s.files
  {
    FileDroppedKeeps(s, f);
    InodeCloseKeeps(FileDropped(s, f), s.files[f].inode);
    InodeClose(FileDropped(s, f), s.files[f].inode)
  }

  /** `filesys_remove`; the entry may fail to be written. */
  ghost function Remove(s: State, name: Name, rootOk: bool, inodeMem: bool, entryWritten: bool): (State, bool)
    requires Inv(s, None)
  {
    if !rootOk || name !in s.root then (s, false)
    else
      InodeOpenKeeps(s, s.root[name], inodeMem);
      var (s1, p) := InodeOpen(s, s.root[name], inodeMem);
      if p.None? then (s1, false)
      else
        UnlinkedKeeps(s1, name, p.value);
        var s2 := if entryWritten then Unlinked(s1, name, p.value) else s1;
        InodeCloseKeeps(s2, p.value);
        (InodeClose(s2, p.value), entryWritten)
  }
}
