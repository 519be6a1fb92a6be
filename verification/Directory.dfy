/**
 Directories (proj1/src/filesys/directory.c): a file of 20-byte entries, scanned and rewritten in place
 through `inode_read_at` and `inode_write_at`, behaves as a finite map from names to inode sectors.
 */
module Directory {
  import opened Bytes
  import opened Inodes

  type Name = seq<byte>

  const NAME_MAX := 14

  // ----- one entry: 4 bytes of sector number, 15 of name, 1 flag -----

  type Entry = e: seq<byte> | |e| == 20 witness seq(20, _ => 0)

  predicate InUse(e: Entry) { e[19] != 0 }

  function SectorField(e: Entry): nat { Word(e[..4]) }

  function NameField(e: Entry): Name { CString(e[4..19]) }

  /** The name ends inside its field. */
  predicate Terminated(e: Entry) { |NameField(e)| <= NAME_MAX }

  // ----- the directory as a map -----

  function SlotCount(file: seq<byte>): nat { |file| / 20 }

  function Slot(file: seq<byte>, k: nat): Entry
    requires k < SlotCount(file)
  {
    file[20 * k..20 * k + 20]
  }

  ghost predicate Has(file: seq<byte>, k: nat, name: Name) {
    k < SlotCount(file) && InUse(Slot(file, k)) && NameField(Slot(file, k)) == name
  }

  /** Names of entries in use are unique and properly terminated. */
  ghost predicate WellFormed(file: seq<byte>) {
    && (forall i, j, n {:trigger Has(file, i, n), Has(file, j, n)} :: Has(file, i, n) && Has(file, j, n) ==> i == j)
    && (forall k {:trigger Slot(file, k)} :: 0 <= k < SlotCount(file) && InUse(Slot(file, k)) ==>
      Terminated(Slot(file, k)))
  }

  /** The map a directory stands for. */
  ghost function AsMap(file: seq<byte>): map<Name, nat>
    requires WellFormed(file)
  {
    SlotsDiffer(file);
    map k | 0 <= k < SlotCount(file) && InUse(Slot(file, k)) :: NameField(Slot(file, k)) := SectorField(Slot(file, k))
  }

  ghost predicate SameName(file: seq<byte>, i: int, j: int) {
    && 0 <= i < SlotCount(file) && 0 <= j < SlotCount(file)
    && InUse(Slot(file, i)) && InUse(Slot(file, j)) && NameField(Slot(file, i)) == NameField(Slot(file, j))
  }

  lemma SlotsDiffer(file: seq<byte>)
    requires WellFormed(file)
    ensures forall i, j {:trigger Slot(file, i), Slot(file, j)} ::
      SameName(file, i, j) ==> i == j
  {
    forall i, j | SameName(file, i, j)
      ensures i == j
    {
      assert Has(file, i, NameField(Slot(file, i))) && Has(file, j, NameField(Slot(file, i)));
    }
  }

  lemma MapHas(file: seq<byte>, k: nat, name: Name)
    requires WellFormed(file) && Has(file, k, name)
    ensures name in AsMap(file) && AsMap(file)[name] == SectorField(Slot(file, k))
  {
    SlotsDiffer(file);
  }

  lemma MapLacks(file: seq<byte>, name: Name)
    requires WellFormed(file) && forall k :: !Has(file, k, name)
    ensures name !in AsMap(file)
  {
    if name in AsMap(file) { var k := MapNeeds(file, name); }
  }

  lemma MapNeeds(file: seq<byte>, name: Name) returns (k: nat)
    requires WellFormed(file) && name in AsMap(file)
    ensures Has(file, k, name)
  {
    SlotsDiffer(file);
    k :| 0 <= k < SlotCount(file) && InUse(Slot(file, k)) && NameField(Slot(file, k)) == name;
  }

  ghost predicate HasFreeSlot(file: seq<byte>) {
    exists k {:trigger Slot(file, k)} :: 0 <= k < SlotCount(file) && !InUse(Slot(file, k))
  }

  /** The names in the first k slots. */
  ghost function NamesBelow(file: seq<byte>, k: nat): set<Name>
    requires k <= SlotCount(file)
  {
    if k == 0 then {}
    else NamesBelow(file, k - 1) + if InUse(Slot(file, k - 1)) then {NameField(Slot(file, k - 1))} else {}
  }

  lemma {:induction false} SlotOfName(file: seq<byte>, k: nat, n: Name) returns (j: nat)
    requires k <= SlotCount(file) && n in NamesBelow(file, k)
    ensures j < k && Has(file, j, n)
  {
    j := k - 1;
    if !Has(file, k - 1, n) { j := SlotOfName(file, k - 1, n); }
  }

  lemma {:induction false} NameOfSlot(file: seq<byte>, k: nat, j: nat, n: Name)
    requires j < k <= SlotCount(file) && Has(file, j, n)
    ensures n in NamesBelow(file, k)
  {
    if j < k - 1 { NameOfSlot(file, k - 1, j, n); }
  }

  lemma {:induction false} NamesBelowCount(file: seq<byte>, k: nat)
    requires WellFormed(file) && k <= SlotCount(file)
    ensures |NamesBelow(file, k)| <= k
    ensures |NamesBelow(file, k)| == k <==> forall j {:trigger Slot(file, j)} :: 0 <= j < k ==> InUse(Slot(file, j))
  {
    if k > 0 {
      NamesBelowCount(file, k - 1);
      var e := Slot(file, k - 1);
      if InUse(e) {
        assert Has(file, k - 1, NameField(e));
        if NameField(e) in NamesBelow(file, k - 1) { var j := SlotOfName(file, k - 1, NameField(e)); }
      }
    }
  }

  /** There is a free slot exactly when there are fewer names than slots. */
  lemma RoomMeansSlot(file: seq<byte>)
    requires WellFormed(file)
    ensures HasFreeSlot(file) <==> |AsMap(file)| < SlotCount(file)
  {
    var n := SlotCount(file);
    NamesBelowCount(file, n);
    forall x | x in AsMap(file) ensures x in NamesBelow(file, n) {
      var j := MapNeeds(file, x);
      NameOfSlot(file, n, j, x);
    }
    forall x | x in NamesBelow(file, n) ensures x in AsMap(file) {
      var j := SlotOfName(file, n, x);
      MapHas(file, j, x);
    }
    SameNames(AsMap(file), NamesBelow(file, n));
  }

  lemma SameNames(m: map<Name, nat>, names: set<Name>)
    requires (forall x <- m :: x in names) && forall x <- names :: x in m
    ensures |m| == |names|
  {
    assert m.Keys == names;
  }

  /** file' is file with slot k rewritten to e. */
  ghost predicate SlotRewritten(file: seq<byte>, file': seq<byte>, k: nat, e: Entry) {
    && k < SlotCount(file) && |file'| == |file| && Slot(file', k) == e
    && forall j {:trigger Slot(file', j)} :: 0 <= j < SlotCount(file) && j != k ==> Slot(file', j) == Slot(file, j)
  }

  ghost predicate SlotsKept(file: seq<byte>, file': seq<byte>) {
    && |file'| == |file|
    && forall j {:trigger Slot(file', j)} :: 0 <= j < SlotCount(file) ==> Slot(file', j) == Slot(file, j)
  }

  lemma KeptMap(file: seq<byte>, file': seq<byte>)
    requires WellFormed(file) && SlotsKept(file, file')
    ensures WellFormed(file') && AsMap(file') == AsMap(file)
  {
    forall k, n | Has(file', k, n)
      ensures Has(file, k, n)
    {
      assert Slot(file', k) == Slot(file, k);
    }
    MapsAgree(file, file');
  }

  lemma MapsAgree(file: seq<byte>, file': seq<byte>)
    requires WellFormed(file) && WellFormed(file') && SlotsKept(file, file')
    ensures AsMap(file') == AsMap(file)
  {
    forall n | n in AsMap(file)
      ensures n in AsMap(file') && AsMap(file')[n] == AsMap(file)[n]
    {
      var k := MapNeeds(file, n);
      assert Slot(file', k) == Slot(file, k);
      MapHas(file, k, n);
      MapHas(file', k, n);
    }
    forall n | n in AsMap(file')
      ensures n in AsMap(file)
    {
      var k := MapNeeds(file', n);
      assert Slot(file', k) == Slot(file, k);
      MapHas(file, k, n);
    }
  }

  lemma AddedHas(file: seq<byte>, file': seq<byte>, k: nat, e: Entry, j: nat, n: Name)
    requires SlotRewritten(file, file', k, e) && !InUse(Slot(file, k)) && InUse(e)
    ensures Has(file', j, n) <==> if j == k then n == NameField(e) else Has(file, j, n)
    ensures Has(file', j, n) && j != k ==> Slot(file', j) == Slot(file, j)
  {
    if j < SlotCount(file) && j != k { assert Slot(file', j) == Slot(file, j); }
  }

  lemma AddedWellFormed(file: seq<byte>, file': seq<byte>, k: nat, e: Entry)
    requires WellFormed(file) && SlotRewritten(file, file', k, e) && !InUse(Slot(file, k))
    requires InUse(e) && Terminated(e) && NameField(e) !in AsMap(file)
    ensures WellFormed(file')
  {
    forall i, j, n | Has(file', i, n) && Has(file', j, n)
      ensures i == j
    {
      AddedHas(file, file', k, e, i, n);
      AddedHas(file, file', k, e, j, n);
      if Has(file, i, n) { MapHas(file, i, n); }
      if Has(file, j, n) { MapHas(file, j, n); }
    }
  }

  /** Filling a free slot adds one name to the map. */
  lemma AddedMap(file: seq<byte>, file': seq<byte>, k: nat, e: Entry)
    requires WellFormed(file) && SlotRewritten(file, file', k, e) && !InUse(Slot(file, k))
    requires InUse(e) && Terminated(e) && NameField(e) !in AsMap(file)
    ensures WellFormed(file') && AsMap(file') == AsMap(file)[NameField(e) := SectorField(e)]
  {
    AddedWellFormed(file, file', k, e);
    var old', new' := AsMap(file)[NameField(e) := SectorField(e)], AsMap(file');
    forall n | n in old'
      ensures n in new' && new'[n] == old'[n]
    {
      var j := k;
      if n != NameField(e) { j := MapNeeds(file, n); }
      AddedHas(file, file', k, e, j, n);
      MapHas(file', j, n);
      if n != NameField(e) { MapHas(file, j, n); }
    }
    forall n | n in new'
      ensures n in old'
    {
      var j := MapNeeds(file', n);
      AddedHas(file, file', k, e, j, n);
      if j != k { MapHas(file, j, n); }
    }
  }

  lemma RemovedHas(file: seq<byte>, file': seq<byte>, k: nat, e: Entry, j: nat, n: Name)
    requires WellFormed(file) && SlotRewritten(file, file', k, e) && InUse(Slot(file, k)) && !InUse(e)
    ensures Has(file', j, n) <==> Has(file, j, n) && n != NameField(Slot(file, k))
    ensures Has(file', j, n) ==> Slot(file', j) == Slot(file, j)
  {
    var name := NameField(Slot(file, k));
    assert Has(file, k, name);
    if j < SlotCount(file) && j != k {
      assert Slot(file', j) == Slot(file, j);
      assert !(n == name && Has(file, j, name));
    }
  }

  lemma RemovedWellFormed(file: seq<byte>, file': seq<byte>, k: nat, e: Entry)
    requires WellFormed(file) && SlotRewritten(file, file', k, e) && InUse(Slot(file, k)) && !InUse(e)
    ensures WellFormed(file')
  {
    forall i, j, n | Has(file', i, n) && Has(file', j, n)
      ensures i == j
    {
      RemovedHas(file, file', k, e, i, n);
      RemovedHas(file, file', k, e, j, n);
    }
  }

  /** Clearing the flag of a slot takes its name, and no other, out of the map. */
  lemma RemovedMap(file: seq<byte>, file': seq<byte>, k: nat, e: Entry)
    requires WellFormed(file) && SlotRewritten(file, file', k, e) && InUse(Slot(file, k)) && !InUse(e)
    ensures WellFormed(file') && AsMap(file') == AsMap(file) - {NameField(Slot(file, k))}
  {
    RemovedWellFormed(file, file', k, e);
    var old', new' := AsMap(file) - {NameField(Slot(file, k))}, AsMap(file');
    forall n | n in old' ensures n in new' && new'[n] == old'[n] { RemovedKeeps(file, file', k, e, n); }
    forall n | n in new' ensures n in old' { RemovedOnly(file, file', k, e, n); }
  }

  lemma RemovedKeeps(file: seq<byte>, file': seq<byte>, k: nat, e: Entry, n: Name)
    requires WellFormed(file) && SlotRewritten(file, file', k, e) && InUse(Slot(file, k)) && !InUse(e)
    requires WellFormed(file') && n in AsMap(file) && n != NameField(Slot(file, k))
    ensures n in AsMap(file') && AsMap(file')[n] == AsMap(file)[n]
  {
    var j := MapNeeds(file, n);
    RemovedHas(file, file', k, e, j, n);
    MapHas(file, j, n);
    MapHas(file', j, n);
  }

  lemma RemovedOnly(file: seq<byte>, file': seq<byte>, k: nat, e: Entry, n: Name)
    requires WellFormed(file) && SlotRewritten(file, file', k, e) && InUse(Slot(file, k)) && !InUse(e)
    requires WellFormed(file') && n in AsMap(file')
    ensures n in AsMap(file) && n != NameField(Slot(file, k))
  {
    var j := MapNeeds(file', n);
    RemovedHas(file, file', k, e, j, n);
    MapHas(file, j, n);
  }

  // ----- listing -----

  /** The names in use from slot k on, in slot order. */
  ghost function Names(file: seq<byte>, k: nat): seq<Name>
    decreases SlotCount(file) - k
  {
    if k >= SlotCount(file) then []
    else if InUse(Slot(file, k)) then [NameField(Slot(file, k))] + Names(file, k + 1)
    else Names(file, k + 1)
  }

  lemma {:induction false} NamesFrom(file: seq<byte>, k: nat, n: Name)
    ensures n in Names(file, k) <==> exists j {:trigger Has(file, j, n)} :: k <= j && Has(file, j, n)
    decreases SlotCount(file) - k
  {
    if k < SlotCount(file) {
      NamesFrom(file, k + 1, n);
      assert Has(file, k, n) <==> InUse(Slot(file, k)) && NameField(Slot(file, k)) == n;
    }
  }

  /** A listing from the start names every entry of the map, each once. */
  lemma ListsTheMap(file: seq<byte>)
    requires WellFormed(file)
    ensures forall n :: n in Names(file, 0) <==> n in AsMap(file)
    ensures forall i, j :: 0 <= i < j < |Names(file, 0)| ==> Names(file, 0)[i] != Names(file, 0)[j]
  {
    forall n
      ensures n in Names(file, 0) <==> n in AsMap(file)
    {
      NamesFrom(file, 0, n);
      if n in AsMap(file) {
        var k := MapNeeds(file, n);
      }
      if k: nat :| Has(file, k, n) {
        MapHas(file, k, n);
      }
    }
    NamesDistinct(file, 0);
  }

  lemma {:induction false} NamesDistinct(file: seq<byte>, k: nat)
    requires WellFormed(file)
    ensures forall i, j :: 0 <= i < j < |Names(file, k)| ==> Names(file, k)[i] != Names(file, k)[j]
    decreases SlotCount(file) - k
  {
    if k < SlotCount(file) {
      NamesDistinct(file, k + 1);
      if InUse(Slot(file, k)) {
        var n := NameField(Slot(file, k));
        assert Has(file, k, n);
        NamesFrom(file, k + 1, n);
      }
    }
  }

  // ----- reads that fail -----

  /** Whether the read of entry k in one scan of the directory finds memory for its bounce buffer.  An entry is
      never a whole sector, so every read and write of one needs it. */
  type Memory = nat -> bool

  /** The scan reads entries 0 to k. */
  ghost predicate AllRead(mem: Memory, k: int) { forall j: nat {:trigger mem(j)} :: j <= k ==> mem(j) }

  /** A scan for the name comes upon it before a read fails. */
  ghost predicate Seen(file: seq<byte>, mem: Memory, name: Name) {
    exists k: nat {:trigger Has(file, k, name)} :: Has(file, k, name) && AllRead(mem, k)
  }

  /** Where a scan for a free slot ends: at one, at a read that fails, or behind the last entry. */
  ghost function Gap(file: seq<byte>, mem: Memory, k: nat): (j: nat)
    requires k <= SlotCount(file)
    ensures k <= j <= SlotCount(file) && (j < SlotCount(file) && mem(j) ==> !InUse(Slot(file, j)))
    ensures forall i: nat {:trigger Slot(file, i)} {:trigger mem(i)} :: k <= i < j ==> mem(i) && InUse(Slot(file, i))
    decreases SlotCount(file) - k
  {
    if k < SlotCount(file) && mem(k) && InUse(Slot(file, k)) then Gap(file, mem, k + 1) else k
  }

  /** What `dir_add` does: a name that is valid and not seen is written to the slot where the scan ended. */
  ghost predicate AddDone(file: seq<byte>, file': seq<byte>, name: Name, sector: nat,
                          lookupMem: Memory, scanMem: Memory, canWrite: bool, success: bool) {
    var j := Gap(file, scanMem, 0);
    && |file'| == |file|
    && (success <==> 0 < |name| <= NAME_MAX && !Seen(file, lookupMem, name) && j < SlotCount(file) && canWrite)
    && (success ==> SlotRewritten(file, file', j, Slot(file', j)) && IsEntry(Slot(file', j), name, sector))
    && (!success ==> SlotsKept(file, file'))
  }

  predicate IsEntry(e: Entry, name: Name, sector: nat) {
    InUse(e) && Terminated(e) && NameField(e) == name && SectorField(e) == sector
  }

  /** Of the entries in use, exactly that in slot j, if it is one of them, carries the name. */
  ghost predicate OnlyAt(file: seq<byte>, j: nat, name: Name) {
    forall i {:trigger Slot(file, i)} :: 0 <= i < SlotCount(file) && InUse(Slot(file, i)) ==>
      (NameField(Slot(file, i)) == name <==> i == j)
  }

  /** A successful add makes the directory the map with the name added exactly if the slot it chose is free, or
      the name's own, and no other slot in use has the name. */
  lemma AddedIff(file: seq<byte>, file': seq<byte>, j: nat, name: Name, sector: nat)
    requires WellFormed(file) && j < SlotCount(file) && |file'| == |file|
    requires SlotRewritten(file, file', j, Slot(file', j)) && IsEntry(Slot(file', j), name, sector)
    ensures WellFormed(file') && AsMap(file') == AsMap(file)[name := sector] <==> OnlyAt(file, j, name)
  {
    if OnlyAt(file, j, name) {
      if InUse(Slot(file, j)) {
        OwnSlot(file, file', j, name, sector);
      } else {
        FreeSlot(file, file', j, name, sector);
      }
    }
    if WellFormed(file') && AsMap(file') == AsMap(file)[name := sector] {
      forall i | 0 <= i < SlotCount(file) && InUse(Slot(file, i))
        ensures NameField(Slot(file, i)) == name <==> i == j
      {
        OneSlotEach(file, file', j, name, sector, i);
      }
    }
  }

  lemma FreeSlot(file: seq<byte>, file': seq<byte>, j: nat, name: Name, sector: nat)
    requires WellFormed(file) && |file'| == |file|
    requires j < SlotCount(file) && !InUse(Slot(file, j)) && OnlyAt(file, j, name)
    requires SlotRewritten(file, file', j, Slot(file', j)) && IsEntry(Slot(file', j), name, sector)
    ensures WellFormed(file') && AsMap(file') == AsMap(file)[name := sector]
  {
    forall k: nat ensures !Has(file, k, name) {
      if k < SlotCount(file) && InUse(Slot(file, k)) { assert NameField(Slot(file, k)) == name <==> k == j; }
    }
    MapLacks(file, name);
    AddedMap(file, file', j, Slot(file', j));
  }

  /** The name's own entry is rewritten. */
  lemma OwnSlot(file: seq<byte>, file': seq<byte>, j: nat, name: Name, sector: nat)
    requires WellFormed(file) && Has(file, j, name) && |file'| == |file|
    requires SlotRewritten(file, file', j, Slot(file', j)) && IsEntry(Slot(file', j), name, sector)
    ensures WellFormed(file') && AsMap(file') == AsMap(file)[name := sector]
  {
    forall k: nat, n ensures Has(file', k, n) <==> Has(file, k, n) {
      if k < SlotCount(file) && k != j { assert Slot(file', k) == Slot(file, k); }
    }
    var old', new' := AsMap(file)[name := sector], AsMap(file');
    forall n | n in old' ensures n in new' && new'[n] == old'[n] {
      var k := j;
      if n != name { k := MapNeeds(file, n); MapHas(file, k, n); assert Slot(file', k) == Slot(file, k); }
      MapHas(file', k, n);
    }
    forall n | n in new' ensures n in old' {
      var k := MapNeeds(file', n);
      MapHas(file, k, n);
    }
  }

  lemma OneSlotEach(file: seq<byte>, file': seq<byte>, j: nat, name: Name, sector: nat, i: nat)
    requires WellFormed(file) && j < SlotCount(file) && |file'| == |file|
    requires SlotRewritten(file, file', j, Slot(file', j)) && IsEntry(Slot(file', j), name, sector)
    requires WellFormed(file') && AsMap(file') == AsMap(file)[name := sector]
    requires i < SlotCount(file) && InUse(Slot(file, i))
    ensures NameField(Slot(file, i)) == name <==> i == j
  {
    var n := NameField(Slot(file, i));
    assert Has(file, i, n) && Has(file', j, name);
    MapHas(file, i, n);
    if i == j {
      var k := MapNeeds(file', n);
      if k != j { assert Slot(file', k) == Slot(file, k) && Has(file, k, n); }
    } else {
      assert Slot(file', i) == Slot(file, i) && Has(file', i, n);
    }
  }

  /** When no read fails before the end, an add succeeds exactly for a valid new name when there is a free slot
      and the entry can be written, and then adds just that name; otherwise the map stays as it was. */
  lemma AddedExactly(file: seq<byte>, file': seq<byte>, name: Name, sector: nat, lookupMem: Memory, scanMem: Memory,
                     canWrite: bool, success: bool)
    requires WellFormed(file) && AddDone(file, file', name, sector, lookupMem, scanMem, canWrite, success)
    requires AllRead(lookupMem, SlotCount(file) - 1) && AllRead(scanMem, SlotCount(file) - 1)
    ensures WellFormed(file')
    ensures success <==> 0 < |name| <= NAME_MAX && name !in AsMap(file) && HasFreeSlot(file) && canWrite
    ensures AsMap(file') == if success then AsMap(file)[name := sector] else AsMap(file)
  {
    SeenIff(file, lookupMem, name);
    var j := Gap(file, scanMem, 0);
    assert j < SlotCount(file) ==> !InUse(Slot(file, j));
    if success {
      forall i | 0 <= i < SlotCount(file) && InUse(Slot(file, i)) ensures NameField(Slot(file, i)) != name {
        assert Has(file, i, NameField(Slot(file, i)));
        MapHas(file, i, NameField(Slot(file, i)));
      }
      AddedIff(file, file', j, name, sector);
    } else {
      KeptMap(file, file');
    }
  }

  lemma SeenIff(file: seq<byte>, mem: Memory, name: Name)
    requires WellFormed(file)
    ensures Seen(file, mem, name) ==> name in AsMap(file)
    ensures AllRead(mem, SlotCount(file) - 1) ==> (Seen(file, mem, name) <==> name in AsMap(file))
  {
    if k: nat :| Has(file, k, name) {
      MapHas(file, k, name);
    } else {
      MapLacks(file, name);
    }
  }

  function FirstFails(): Memory { k => k != 0 }

  function NoneFails(): Memory { k => true }

  /** An entry in use with a name of one letter. */
  function Plain(sector: byte, letter: byte): Entry { [sector, 0, 0, 0, letter] + seq(14, _ => 0) + [1] }

  const FREE: Entry := seq(20, _ => 0)

  lemma PlainIs(sector: byte, letter: byte)
    requires letter != 0
    ensures IsEntry(Plain(sector, letter), [letter], sector as nat)
  {
    var e := Plain(sector, letter);
    assert e[4..19][0] == letter && e[4..19][1] == 0;
    CStringOf(e[4..19], [letter]);
  }

  lemma TwoSlots(e0: Entry, e1: Entry)
    ensures SlotCount(e0 + e1) == 2 && Slot(e0 + e1, 0) == e0 && Slot(e0 + e1, 1) == e1
  {
  }

  /** Adding "a" again when the first read of the lookup fails: the directory holds the name twice. */
  lemma NameTwice()
    ensures var file, file' := Plain(2, 97) + FREE, Plain(2, 97) + Plain(3, 97);
      && WellFormed(file) && AddDone(file, file', [97], 3, FirstFails(), NoneFails(), true, true)
      && Has(file', 0, [97]) && Has(file', 1, [97]) && !WellFormed(file')
  {
    var file, file' := Plain(2, 97) + FREE, Plain(2, 97) + Plain(3, 97);
    PlainIs(2, 97);
    PlainIs(3, 97);
    TwoSlots(Plain(2, 97), FREE);
    TwoSlots(Plain(2, 97), Plain(3, 97));
    assert !FirstFails()(0);
    assert Gap(file, NoneFails(), 1) == 1 == Gap(file, NoneFails(), 0);
    assert Has(file', 0, [97]) && Has(file', 1, [97]);
  }

  /** Adding "b" when the first read of the scan for a slot fails: "a" is overwritten. */
  lemma NameLost()
    ensures var file, file' := Plain(2, 97) + FREE, Plain(3, 98) + FREE;
      && WellFormed(file) && AddDone(file, file', [98], 3, NoneFails(), FirstFails(), true, true)
      && [97] in AsMap(file) && WellFormed(file') && [97] !in AsMap(file')
  {
    var file, file' := Plain(2, 97) + FREE, Plain(3, 98) + FREE;
    PlainIs(2, 97);
    PlainIs(3, 98);
    TwoSlots(Plain(2, 97), FREE);
    TwoSlots(Plain(3, 98), FREE);
    MapHas(file, 0, [97]);
    MapLacks(file', [97]);
  }

  // ----- directories -----

  class Dir {
    const inode: Inode
    var pos: off_t

    /** `dir_open`. */
    constructor (inode: Inode)
      ensures this.inode == inode && pos == 0
    {
      this.inode := inode;
      pos := 0;
    }

    ghost predicate Valid(disk: Block)
      reads disk
    {
      Formatted(disk.sectors) && OnDisk(inode.data, disk.sectors)
    }

    ghost function File(disk: Block): seq<byte>
      requires Valid(disk)
      reads disk
    {
      FileBytes(disk.sectors, inode.data)
    }

    /** `inode_read_at (dir->inode, &e, sizeof e, ofs) == sizeof e`. */
    method ReadEntry(disk: Block, e: array<byte>, ofs: off_t, memOk: bool) returns (ok: bool)
      requires Valid(disk) && e.Length == 20 && ofs >= 0 && ofs % 20 == 0
      modifies e
      ensures ok <==> memOk && ofs / 20 < SlotCount(File(disk))
      ensures ok ==> e[..] == Slot(File(disk), ofs / 20)
    {
      var n := inode.ReadAt(disk, e, 20, ofs, memOk);
      ok := n == 20;
      if ok {
        forall i | 0 <= i < 20
          ensures e[..][i] == Slot(File(disk), ofs / 20)[i]
        {
        }
      }
    }

    /** `lookup`: the first entry in use with the given name, unless a read before it fails. */
    method Lookup(disk: Block, name: Name, e: array<byte>, mem: Memory) returns (found: bool, ofs: off_t)
      requires Valid(disk) && e.Length == 20
      modifies e
      ensures found <==> Seen(File(disk), mem, name)
      ensures found ==> forall k: nat {:trigger Has(File(disk), k, name)} :: k < ofs / 20 ==> !Has(File(disk), k, name)
      ensures found ==> ofs >= 0 && ofs % 20 == 0 && Has(File(disk), ofs / 20, name)
      ensures found ==> e[..] == Slot(File(disk), ofs / 20)
    {
      ofs := 0;
      while true
        invariant 0 <= ofs && ofs % 20 == 0 && ofs <= inode.data.length
        invariant forall k {:trigger Has(File(disk), k, name)} :: 0 <= k < ofs / 20 ==> !Has(File(disk), k, name)
        invariant AllRead(mem, ofs / 20 - 1)
        decreases inode.data.length - ofs
      {
        var ok := ReadEntry(disk, e, ofs, mem(ofs / 20));
        if !ok {
          return false, ofs;
        }
        if InUse(e[..]) && NameField(e[..]) == name {
          assert Has(File(disk), ofs / 20, name);
          return true, ofs;
        }
        assert !Has(File(disk), ofs / 20, name);
        ofs := ofs + 20;
      }
    }

    /** `inode_write_at (dir->inode, &e, sizeof e, ofs) == sizeof e`.  At the end of the directory a write
        may come out short; it then touches no whole entry. */
    method WriteEntry(disk: Block, e: Entry, ofs: off_t, memOk: bool) returns (ok: bool)
      requires Valid(disk) && ofs >= 0 && ofs % 20 == 0
      modifies disk
      ensures Valid(disk) && DirOnly(old(disk.sectors), disk.sectors)
      ensures ok <==> memOk && inode.denyWriteCnt == 0 && ofs / 20 < SlotCount(old(File(disk)))
      ensures ok ==> SlotRewritten(old(File(disk)), File(disk), ofs / 20, e)
      ensures !ok ==> SlotsKept(old(File(disk)), File(disk))
    {
      var n := inode.WriteAt(disk, e, 20, ofs, memOk);
      ok := n == 20;
      SlotsAfter(old(File(disk)), File(disk), ofs, n, e);
    }

    /** Only bytes of the directory's own extent differ. */
    ghost predicate DirOnly(d: Sectors, d': Sectors) {
      && Formatted(d) && Formatted(d') && |d'| == |d|
      && SameOutside(d, d', inode.data.start * 512, inode.data.start * 512 + inode.data.length)
    }

    /** The assignments to `e` in `dir_add`, with `strlcpy (e.name, name, sizeof e.name)`. */
    method FillEntry(e: array<byte>, name: Name, sector: nat)
      requires e.Length == 20 && IsCString(name) && |name| <= NAME_MAX && sector < 0x1_0000_0000
      modifies e
      ensures InUse(e[..]) && Terminated(e[..]) && NameField(e[..]) == name && SectorField(e[..]) == sector
    {
      e[19] := 1;
      MemCpy(e, 4, name, 0, |name|);
      e[4 + |name|] := 0;
      ghost var named := e[..];
      assert forall i :: 0 <= i < |name| ==> named[4..19][i] == name[i];
      CStringOf(named[4..19], name);
      MemCpy(e, 0, WordBytes(sector), 0, 4);
      assert e[..][4..19] == named[4..19];
    }

    /** `dir_add`.  AddedExactly says what this means for the map when no read fails, and AddedIff when one may. */
    method Add(disk: Block, name: Name, sector: nat, lookupMem: Memory, scanMem: Memory, writeMem: bool)
      returns (success: bool)
      requires Valid(disk) && IsCString(name) && sector < 0x1_0000_0000
      modifies disk
      ensures Valid(disk) && DirOnly(old(disk.sectors), disk.sectors)
      ensures AddDone(old(File(disk)), File(disk), name, sector, lookupMem, scanMem,
                      writeMem && inode.denyWriteCnt == 0, success)
    {
      success := false;
      if |name| == 0 || |name| > NAME_MAX {
        return;
      }
      var e := new byte[20];
      var found, _ := Lookup(disk, name, e, lookupMem);
      if found {
        return;
      }
      var ofs := FindSlot(disk, e, scanMem);
      FillEntry(e, name, sector);
      success := WriteEntry(disk, e[..], ofs, writeMem);
    }

    /** The scan for a free slot; without one it ends at the end of the whole entries. */
    method FindSlot(disk: Block, e: array<byte>, mem: Memory) returns (ofs: off_t)
      requires Valid(disk) && e.Length == 20
      modifies e
      ensures ofs >= 0 && ofs % 20 == 0 && ofs / 20 == Gap(File(disk), mem, 0)
    {
      ofs := 0;
      while true
        invariant 0 <= ofs && ofs % 20 == 0 && ofs <= inode.data.length && ofs / 20 <= SlotCount(File(disk))
        invariant Gap(File(disk), mem, ofs / 20) == Gap(File(disk), mem, 0)
        decreases inode.data.length - ofs
      {
        var ok := ReadEntry(disk, e, ofs, mem(ofs / 20));
        if !ok || !InUse(e[..]) {
          return;
        }
        ofs := ofs + 20;
      }
    }

    /** The part of `dir_remove` that concerns the directory: look the name up and clear its entry's flag. */
    method Erase(disk: Block, name: Name, mem: Memory, writeMem: bool) returns (success: bool, sector: nat)
      requires Valid(disk) && WellFormed(File(disk))
      modifies disk
      ensures Valid(disk) && WellFormed(File(disk)) && DirOnly(old(disk.sectors), disk.sectors)
      ensures success <==> Seen(old(File(disk)), mem, name) && inode.denyWriteCnt == 0 && writeMem
      ensures success ==> name in old(AsMap(File(disk))) && sector == old(AsMap(File(disk)))[name]
      ensures AsMap(File(disk)) == if success then old(AsMap(File(disk))) - {name} else old(AsMap(File(disk)))
    {
      var e := new byte[20];
      var found, ofs := Lookup(disk, name, e, mem);
      ghost var file := File(disk);
      if !found {
        return false, 0;
      }
      MapHas(file, ofs / 20, name);
      sector := SectorField(e[..]);
      success := ClearEntry(disk, e, ofs, name, writeMem);
    }

    /** `e.in_use = false` and the write back. */
    method ClearEntry(disk: Block, e: array<byte>, ofs: off_t, ghost name: Name, memOk: bool) returns (success: bool)
      requires Valid(disk) && WellFormed(File(disk)) && e.Length == 20 && ofs >= 0 && ofs % 20 == 0
      requires Has(File(disk), ofs / 20, name)
      modifies disk, e
      ensures Valid(disk) && WellFormed(File(disk)) && DirOnly(old(disk.sectors), disk.sectors)
      ensures success <==> inode.denyWriteCnt == 0 && memOk
      ensures AsMap(File(disk)) == if success then old(AsMap(File(disk))) - {name} else old(AsMap(File(disk)))
    {
      ghost var file := File(disk);
      e[19] := 0;
      success := WriteEntry(disk, e[..], ofs, memOk);
      EraseMap(file, File(disk), ofs / 20, name, e[..], success);
    }

    /** One entry of the scan in `dir_readdir`. */
    method NextEntry(disk: Block, e: array<byte>, memOk: bool) returns (more: bool, used: bool, name: Name)
      requires Valid(disk) && e.Length == 20 && pos >= 0 && pos % 20 == 0
      modifies this, e
      ensures more <==> memOk && old(pos) / 20 < SlotCount(File(disk))
      ensures pos == if more then old(pos) + 20 else old(pos)
      ensures pos >= 0 && pos % 20 == 0
      ensures used ==> Names(File(disk), old(pos) / 20) == [name] + Names(File(disk), pos / 20)
      ensures !used ==> Names(File(disk), old(pos) / 20) == Names(File(disk), pos / 20)
      ensures !more ==> !used
      ensures more ==> pos <= |File(disk)|
    {
      NamesStep(File(disk), pos / 20);
      assert (pos + 20) / 20 == pos / 20 + 1;
      used, name := false, [];
      more := ReadEntry(disk, e, pos, memOk);
      if more {
        pos := pos + 20;
        used := InUse(e[..]);
        if used {
          name := NameField(e[..]);
        }
      }
    }

    /** `dir_readdir`: hands out the remaining names one at a time, and skips none.  It stops only when there are no
        more or a read fails. */
    method ReadDir(disk: Block, mem: Memory) returns (ok: bool, name: Name)
      requires Valid(disk) && pos >= 0 && pos % 20 == 0
      modifies this
      ensures pos >= 0 && pos % 20 == 0
      ensures Names(File(disk), old(pos) / 20) == (if ok then [name] else []) + Names(File(disk), pos / 20)
      ensures !ok ==> Names(File(disk), pos / 20) == [] || !mem(pos / 20)
    {
      var e := new byte[20];
      ghost var file, names := File(disk), Names(File(disk), pos / 20);
      while true
        invariant Valid(disk) && File(disk) == file && pos >= 0 && pos % 20 == 0
        invariant Names(file, pos / 20) == names
        decreases |file| - pos
      {
        var more, used;
        more, used, name := NextEntry(disk, e, mem(pos / 20));
        if !more || used {
          assert [] + Names(file, pos / 20) == Names(file, pos / 20);
          NamesStep(file, pos / 20);
          return used, name;
        }
      }
    }
  }

  lemma EraseMap(file: seq<byte>, file': seq<byte>, k: nat, name: Name, e: Entry, success: bool)
    requires WellFormed(file) && Has(file, k, name) && !InUse(e)
    requires if success then SlotRewritten(file, file', k, e) else SlotsKept(file, file')
    ensures WellFormed(file') && AsMap(file') == if success then AsMap(file) - {name} else AsMap(file)
  {
    if success { RemovedMap(file, file', k, e); } else { KeptMap(file, file'); }
  }

  lemma NamesStep(file: seq<byte>, k: nat)
    ensures k >= SlotCount(file) ==> Names(file, k) == []
    ensures k < SlotCount(file) && InUse(Slot(file, k)) ==>
      Names(file, k) == [NameField(Slot(file, k))] + Names(file, k + 1)
    ensures k < SlotCount(file) && !InUse(Slot(file, k)) ==> Names(file, k) == Names(file, k + 1)
  {
  }

  lemma SlotsAfter(file: seq<byte>, file': seq<byte>, ofs: nat, n: nat, e: Entry)
    requires ofs % 20 == 0 && n <= 20 && (n < 20 ==> n == 0 || ofs + n == |file|)
    requires Overlaid(file, file', ofs, n, e, 0)
    ensures n == 20 ==> SlotRewritten(file, file', ofs / 20, e)
    ensures n < 20 ==> SlotsKept(file, file')
  {
    forall j, i | 0 <= j < SlotCount(file) && 0 <= i < 20
      ensures Slot(file', j)[i] == if n == 20 && j == ofs / 20 then e[i] else Slot(file, j)[i]
    {
      assert Slot(file', j)[i] == file'[20 * j + i];
    }
  }
}
