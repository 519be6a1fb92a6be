/**
 Who owns which sector (proj1/src/filesys: filesys.c, inode.c, free-map.c, file.c): creating, opening,
 removing and closing files over a free map, on-disk inodes, the list of open inodes and file handles.

 In-memory inodes and handles are entries of maps keyed by address, so use after free would be a partial map
 lookup.  Failures of memory allocation and of writes to the free map or directory are parameters.  The root
 directory is the finite map that Directory.dfy shows it to be as long as no read of an entry fails.
 */
module FileSystems {
  import opened Lists
  import opened Bitmaps
  import Bytes
  import Inodes

  type Sector = nat
  type Ptr = nat
  type Name = seq<Bytes.byte>

  /** `struct inode_disk`: the data sectors and the length in bytes. */
  type DiskInode = Inodes.Extent

  const FREE_MAP_SECTOR: Sector := 0
  const ROOT_DIR_SECTOR: Sector := 1

  /** `struct inode`. */
  datatype OpenInode = OpenInode(sector: Sector, openCnt: int, removed: bool, denyWriteCnt: int, data: DiskInode)

  /** `struct file`, without its position. */
  datatype File = File(inode: Ptr, denyWrite: bool)

  datatype State = State(
    freeMap: seq<bool>,
    disk: map<Sector, DiskInode>,        // the inode last written to each inode sector
    root: map<Name, Sector>,
    capacity: nat,                       // directory entries there is room for
    inodes: map<Ptr, OpenInode>,
    openList: seq<Ptr>,                  // open_inodes
    nextPtr: Ptr,
    files: map<Ptr, File>,
    nextFile: Ptr)

  // ----- free-map.c -----

  function Sectors(d: DiskInode): nat
    requires d.length >= 0
  {
    Inodes.BytesToSectors(d.length as nat)
  }

  ghost predicate Grown(freeMap: seq<bool>, freeMap': seq<bool>) {
    |freeMap'| == |freeMap| && forall k {:trigger freeMap'[k]} | 0 <= k < |freeMap| :: freeMap[k] ==> freeMap'[k]
  }

  /** `free_map_allocate`; when the map cannot be written the bits go back to what they were. */
  ghost function Allocate(freeMap: seq<bool>, cnt: nat, writeOk: bool): (r: (seq<bool>, Option<Sector>))
    ensures Grown(freeMap, r.0)
    ensures r.1.Some? ==> RunAt(freeMap, r.1.value, cnt, false) && RunAt(r.0, r.1.value, cnt, true)
    ensures forall k {:trigger r.0[k]} | 0 <= k < |freeMap| ::
      r.0[k] <==> freeMap[k] || (r.1.Some? && r.1.value <= k < r.1.value + cnt)
  {
    var r := FirstRun(freeMap, 0, cnt, false);
    if r.Some? && writeOk then (SetMultiple(freeMap, r.value, cnt, true), r) else (freeMap, None)
  }

  /** `free_map_release`, whose assertion is the precondition. */
  ghost function Release(freeMap: seq<bool>, sector: Sector, cnt: nat): seq<bool>
    requires RunAt(freeMap, sector, cnt, true)
  {
    SetMultiple(freeMap, sector, cnt, false)
  }

  // ----- inode.c -----

  /** `inode_create`. */
  ghost function InodeCreate(s: State, sector: Sector, length: Inodes.off_t, memOk: bool, writeOk: bool)
    : (r: (State, bool))
    requires length >= 0
    ensures Grown(s.freeMap, r.0.freeMap)
  {
    var (freeMap, start) := Allocate(s.freeMap, Inodes.BytesToSectors(length as nat), writeOk);
    if memOk && start.Some?
    then (s.(freeMap := freeMap, disk := s.disk[sector := Inodes.Extent(start.value, length)]), true)
    else (s, false)
  }

  /** The open inode for a sector, as `inode_open`'s search finds it. */
  function FindOpen(s: State, list: seq<Ptr>, sector: Sector): (r: Option<Ptr>)
    requires forall p <- list :: p in s.inodes
    ensures r.Some? ==> r.value in list && s.inodes[r.value].sector == sector
    ensures r.None? ==> forall p <- list :: s.inodes[p].sector != sector
  {
    if list == [] then None
    else
      assert forall p <- list :: p == list[0] || p in list[1..];
      if s.inodes[list[0]].sector == sector then Some(list[0]) else FindOpen(s, list[1..], sector)
  }

  function Reopened(s: State, p: Ptr): State
    requires p in s.inodes
  {
    s.(inodes := s.inodes[p := s.inodes[p].(openCnt := s.inodes[p].openCnt + 1)])
  }

  /** `inode_open`. */
  function InodeOpen(s: State, sector: Sector, memOk: bool): (State, Option<Ptr>)
    requires sector in s.disk && forall p <- s.openList :: p in s.inodes
  {
    var found := FindOpen(s, s.openList, sector);
    if found.Some? then (Reopened(s, found.value), found)
    else if !memOk then (s, None)
    else
      (s.(inodes := s.inodes[s.nextPtr := OpenInode(sector, 1, false, 0, s.disk[sector])],
          openList := [s.nextPtr] + s.openList, nextPtr := s.nextPtr + 1),
       Some(s.nextPtr))
  }

  /** What `inode_close` asserts of the free map when it deletes a file. */
  ghost predicate CanRelease(s: State, p: Ptr)
    requires p in s.inodes
  {
    var r := s.inodes[p];
    && RunAt(s.freeMap, r.sector, 1, true) && r.data.length >= 0
    && RunAt(Release(s.freeMap, r.sector, 1), r.data.start, Sectors(r.data), true)
  }

  ghost predicate CanClose(s: State, p: Ptr) {
    p in s.inodes && (s.inodes[p].openCnt == 1 && s.inodes[p].removed ==> CanRelease(s, p))
  }

  /** `inode_close`. */
  ghost function InodeClose(s: State, p: Ptr): State
    requires CanClose(s, p)
  {
    var r := s.inodes[p];
    if r.openCnt - 1 != 0 then s.(inodes := s.inodes[p := r.(openCnt := r.openCnt - 1)])
    else
      var s1 := s.(inodes := s.inodes - {p}, openList := Without(s.openList, p));
      if r.removed
      then s1.(freeMap := Release(Release(s.freeMap, r.sector, 1), r.data.start, Sectors(r.data)))
      else s1
  }

  // ----- ownership -----

  /** Sector k holds contents of a file. */
  predicate InExtent(d: DiskInode, k: Sector) {
    d.length >= 0 && d.start <= k < d.start + Sectors(d)
  }

  /** Sector k belongs to the inode in sector a: it is that sector, or holds its contents. */
  predicate Owns(disk: map<Sector, DiskInode>, a: Sector, k: Sector) {
    a in disk && (k == a || InExtent(disk[a], k))
  }

  /** The free map's and the root's inode, and those with a name. */
  ghost predicate Linked(s: State, sector: Sector) {
    sector == FREE_MAP_SECTOR || sector == ROOT_DIR_SECTOR || sector in s.root.Values
  }

  ghost predicate IsOpen(s: State, sector: Sector) {
    exists p {:trigger s.inodes[p]} :: p in s.inodes && s.inodes[p].sector == sector
  }

  ghost predicate Live(s: State, sector: Sector) { Linked(s, sector) || IsOpen(s, sector) }

  /** Everything owned is marked in use, and nothing has two owners. */
  ghost predicate OwnershipOk(s: State) {
    && (forall a {:trigger Live(s, a)} :: Live(s, a) ==>
          && a in s.disk && s.disk[a].length >= 0 && s.disk[a].start + Sectors(s.disk[a]) <= |s.freeMap|
          && !InExtent(s.disk[a], a))
    && (forall a, k: nat {:trigger Owns(s.disk, a, k)} :: Live(s, a) && Owns(s.disk, a, k) ==>
      k < |s.freeMap| && s.freeMap[k])
    && (forall a, b, k: nat {:trigger Owns(s.disk, a, k), Owns(s.disk, b, k)} ::
          Live(s, a) && Live(s, b) && Owns(s.disk, a, k) && Owns(s.disk, b, k) ==> a == b)
  }

  /** Names have inodes of their own. */
  ghost predicate NamesOk(s: State) {
    && (forall n {:trigger s.root[n]} :: n in s.root ==> s.root[n] != FREE_MAP_SECTOR && s.root[n] != ROOT_DIR_SECTOR)
    && (forall n, m {:trigger s.root[n], s.root[m]} :: n in s.root && m in s.root && s.root[n] == s.root[m] ==> n == m)
  }

  /** The handles on an open inode, and those among them that deny writing. */
  ghost function Handles(files: map<Ptr, File>, p: Ptr): set<Ptr> { set f | f in files && files[f].inode == p }

  ghost function Denials(files: map<Ptr, File>, p: Ptr): set<Ptr> {
    set f | f in files && files[f].inode == p && files[f].denyWrite
  }

  /** An open inode; `held` is a reference that the operation in progress has and no handle stands for. */
  ghost predicate InodeOk(s: State, p: Ptr, held: Option<Ptr>)
    requires p in s.inodes
  {
    var r := s.inodes[p];
    && p < s.nextPtr
    && r.sector in s.disk && r.data == s.disk[r.sector]
    && (r.removed <==> !Linked(s, r.sector))
    && r.openCnt == |Handles(s.files, p)| + (if held == Some(p) then 1 else 0) && r.openCnt > 0
    && r.denyWriteCnt == |Denials(s.files, p)|
  }

  ghost predicate OpenOk(s: State, held: Option<Ptr>) {
    && ListOk(s) && OneInodeEach(s) && FilesOk(s)
    && (forall p {:trigger InodeOk(s, p, held)} :: p in s.inodes ==> InodeOk(s, p, held))
    && (held.Some? ==> held.value in s.inodes)
  }

  /** open_inodes lists every in-memory inode once. */
  ghost predicate ListOk(s: State) {
    && Distinct(s.openList)
    && (forall p {:trigger p in s.openList} {:trigger p in s.inodes} :: p in s.openList <==> p in s.inodes)
  }

  /** There is one in-memory inode for an open sector. */
  ghost predicate OneInodeEach(s: State) {
    forall p, q {:trigger s.inodes[p], s.inodes[q]} ::
      p in s.inodes && q in s.inodes && s.inodes[p].sector == s.inodes[q].sector ==> p == q
  }

  ghost predicate FilesOk(s: State) {
    forall f {:trigger s.files[f]} :: f in s.files ==> f < s.nextFile && s.files[f].inode in s.inodes
  }

  ghost predicate Inv(s: State, held: Option<Ptr>) {
    && |s.freeMap| >= 2
    && OwnershipOk(s) && NamesOk(s) && OpenOk(s, held)
  }

  /** No sector is marked in use without an owner. */
  ghost predicate Tight(s: State) {
    forall k {:trigger s.freeMap[k]} | 0 <= k < |s.freeMap| && s.freeMap[k] :: Possessed(s, k)
  }

  ghost predicate Possessed(s: State, k: Sector) {
    exists a {:trigger Owns(s.disk, a, k)} :: Live(s, a) && Owns(s.disk, a, k)
  }

  /** The name's entry is cleared and `inode_remove` called. */
  ghost function Unlinked(s: State, name: Name, p: Ptr): State
    requires p in s.inodes
  {
    s.(root := s.root - {name}, inodes := s.inodes[p := s.inodes[p].(removed := true)])
  }

  // ----- file.c and filesys.c -----

  /** `file_open`; without memory it gives the inode back. */
  ghost function FileOpen(s: State, p: Ptr, memOk: bool): (State, Option<Ptr>)
    requires CanClose(s, p)
  {
    if memOk then (s.(files := s.files[s.nextFile := File(p, false)], nextFile := s.nextFile + 1), Some(s.nextFile))
    else (InodeClose(s, p), None)
  }

  /** `file_deny_write`. */
  function FileDenyWrite(s: State, f: Ptr): State
    requires f in s.files && s.files[f].inode in s.inodes
  {
    var file, p := s.files[f], s.files[f].inode;
    if file.denyWrite then s
    else s.(files := s.files[f := file.(denyWrite := true)],
            inodes := s.inodes[p := s.inodes[p].(denyWriteCnt := s.inodes[p].denyWriteCnt + 1)])
  }

  /** `file_allow_write`. */
  function FileAllowWrite(s: State, f: Ptr): State
    requires f in s.files && s.files[f].inode in s.inodes
  {
    var file, p := s.files[f], s.files[f].inode;
    if !file.denyWrite then s
    else s.(files := s.files[f := file.(denyWrite := false)],
            inodes := s.inodes[p := s.inodes[p].(denyWriteCnt := s.inodes[p].denyWriteCnt - 1)])
  }

  /** `file_close`, up to its `inode_close`. */
  function FileDropped(s: State, f: Ptr): State
    requires f in s.files && s.files[f].inode in s.inodes
  {
    var s1 := FileAllowWrite(s, f);
    s1.(files := s1.files - {f})
  }

  /** Which allocations and writes succeed during `filesys_create`. */
  datatype CreateEnv = CreateEnv(
    rootOk: bool, sectorWritten: bool, memOk: bool, extentWritten: bool, entryWritten: bool)

  predicate NameOk(name: Name) { 0 < |name| <= 14 && forall c <- name :: c != 0 }

  /** `dir_add`: a good name that is not there yet, and room for it (Directory.AddedExactly). */
  predicate CanAdd(s: State, name: Name, entryWritten: bool) {
    NameOk(name) && name !in s.root && |s.root| < s.capacity && entryWritten
  }

  /** `filesys_create`. */
  ghost function Create(s: State, name: Name, length: Inodes.off_t, e: CreateEnv): (State, bool)
    requires length >= 0
  {
    var (freeMap, sector) := Allocate(s.freeMap, 1, e.sectorWritten);
    if !e.rootOk || sector.None? then (s, false)
    else
      var (s1, made) := InodeCreate(s.(freeMap := freeMap), sector.value, length, e.memOk, e.extentWritten);
      if made && CanAdd(s1, name, e.entryWritten) then (s1.(root := s1.root[name := sector.value]), true)
      else if sector.value != 0 then (s1.(freeMap := Release(s1.freeMap, sector.value, 1)), false)
      else (s1, false)
  }
}
