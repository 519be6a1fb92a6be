/**
 Reading and writing file data one sector at a time (proj1/src/filesys/inode.c).

 The disk is an array of 512-byte sectors and a file is a run of consecutive sectors.  The loops copy
 whole sectors directly and partial ones through a bounce buffer; what they amount to is a copy on the
 flat byte array of the file's length.
 */
module Inodes {
  import opened Bytes
  import opened Words

  /** File offsets and sizes are 32-bit signed. */
  type off_t = I32

  type Sectors = seq<seq<byte>>

  ghost predicate Formatted(d: Sectors) {
    forall i {:trigger d[i]} :: 0 <= i < |d| ==> |d[i]| == 512
  }

  /** DIV_ROUND_UP (size, BLOCK_512). */
  function BytesToSectors(size: nat): nat {
    (size + 512 - 1) / 512
  }

  // ----- the flat view -----

  /** Byte i of the disk, counting through its sectors. */
  function DiskByte(d: Sectors, i: nat): byte
    requires Formatted(d) && i < |d| * 512
  {
    SectorOf(i, |d|);
    d[i / 512][i % 512]
  }

  lemma SectorOf(i: nat, n: nat)
    requires i < n * 512
    ensures 0 <= i / 512 < n && 0 <= i % 512 < 512
  {
  }

  /** The extent of a file: `length` bytes from the first byte of sector `start`. */
  datatype Extent = Extent(start: nat, length: off_t)

  predicate OnDisk(x: Extent, d: Sectors) {
    x.length >= 0 && x.start + BytesToSectors(x.length) <= |d|
  }

  lemma ExtentFits(x: Extent, d: Sectors, i: int)
    requires OnDisk(x, d) && i < x.length
    ensures x.start * 512 + i < |d| * 512
  {
  }

  function FileByte(d: Sectors, x: Extent, i: nat): byte
    requires Formatted(d) && OnDisk(x, d) && i < x.length
  {
    ExtentFits(x, d, i);
    DiskByte(d, x.start * 512 + i)
  }

  /** The file as one flat array of bytes. */
  function FileBytes(d: Sectors, x: Extent): (bytes: seq<byte>)
    requires Formatted(d) && OnDisk(x, d)
    ensures |bytes| == x.length
  {
    seq(x.length, i requires 0 <= i < x.length => FileByte(d, x, i))
  }

  /** How much of a request lies inside the file. */
  function Clip(length: int, size: int, offset: nat): (n: nat)
    ensures n > 0 ==> n <= size && offset + n <= length
    ensures n < size ==> offset + n >= length
  {
    if size <= 0 || length <= offset then 0
    else if size < length - offset then size else length - offset
  }

  /** How many bytes a request transfers.  Without memory for the bounce buffer the loop stops at the
      first sector that is not transferred whole. */
  function Transferred(length: int, size: int, offset: nat, bounceOk: bool): (n: nat)
    ensures n <= Clip(length, size, offset) && (bounceOk ==> n == Clip(length, size, offset))
    ensures !bounceOk && offset % 512 == 0 ==> n % 512 == 0 && Clip(length, size, offset) < n + 512
    ensures !bounceOk && offset % 512 != 0 ==> n == 0
  {
    var n := Clip(length, size, offset);
    if bounceOk then n
    else if offset % 512 != 0 then 0
    else n / 512 * 512
  }

  /** `now` is `prev` with n bytes of src, from index `from` on, laid over it at `at`. */
  ghost predicate Overlaid(prev: seq<byte>, now: seq<byte>, at: nat, n: nat, src: seq<byte>, from: nat) {
    && |now| == |prev|
    && (n > 0 ==> at + n <= |prev| && from + n <= |src|)
    && forall i {:trigger now[i]} :: 0 <= i < |now| ==>
         now[i] == if at <= i < at + n then src[from + i - at] else prev[i]
  }

  /** Two adjacent overlays make one. */
  lemma OverlayMore(before: seq<byte>, mid: seq<byte>, now: seq<byte>, at: nat, done: nat, more: nat,
                    src: seq<byte>, from: nat)
    requires Overlaid(before, mid, at, done, src, from) && Overlaid(mid, now, at + done, more, src, from + done)
    requires more > 0
    ensures Overlaid(before, now, at, done + more, src, from)
  {
    forall i | 0 <= i < |now|
      ensures now[i] == if at <= i < at + done + more then src[from + i - at] else before[i]
    {
      assert now[i] == if at + done <= i < at + done + more then src[from + i - at] else mid[i];
    }
  }

  /** What a read after a write on the same file puts into the buffer: the written bytes where the two
      requests overlap and the old bytes of the file elsewhere. */
  lemma ReadAfterWrite(file: seq<byte>, file': seq<byte>, data: seq<byte>, w: nat, n: nat,
                       buffer: seq<byte>, buffer': seq<byte>, r: nat, m: nat, i: nat)
    requires Overlaid(file, file', w, n, data, 0) && Overlaid(buffer, buffer', 0, m, file', r)
    requires i < m
    ensures buffer'[i] == if w <= r + i < w + n then data[r + i - w] else file[r + i]
  {
    assert buffer'[i] == file'[r + i];
  }

  /** Where a piece of the disk changed, a file that shares no byte with the piece did not. */
  lemma OtherFileUntouched(d: Sectors, d': Sectors, x: Extent, lo: nat, hi: nat)
    requires Formatted(d) && Formatted(d') && |d'| == |d| && OnDisk(x, d)
    requires forall i {:trigger DiskByte(d', i)} :: 0 <= i < |d| * 512 && !(lo <= i < hi) ==>
      DiskByte(d', i) == DiskByte(d, i)
    requires x.start * 512 + x.length <= lo || hi <= x.start * 512
    ensures FileBytes(d', x) == FileBytes(d, x)
  {
    forall i | 0 <= i < x.length
      ensures FileBytes(d', x)[i] == FileBytes(d, x)[i]
    {
      ExtentFits(x, d, i);
      assert FileByte(d', x, i) == DiskByte(d', x.start * 512 + i);
    }
  }

  // ----- the device -----

  /** `memcpy` between two distinct buffers. */
  method MemCpy(dst: array<byte>, at: nat, src: seq<byte>, from: nat, n: nat)
    requires at + n <= dst.Length && from + n <= |src|
    modifies dst
    ensures Overlaid(old(dst[..]), dst[..], at, n, src, from)
  {
    forall i | 0 <= i < n {
      dst[at + i] := src[from + i];
    }
  }

  class Block {
    var sectors: Sectors

    constructor (n: nat)
      ensures Formatted(sectors) && |sectors| == n
    {
      sectors := seq(n, _ => seq(512, _ => 0));
    }

    /** `block_read` into a place in the caller's buffer. */
    method BlockRead(sector: nat, buffer: array<byte>, at: nat)
      requires Formatted(sectors) && sector < |sectors| && at + 512 <= buffer.Length
      modifies buffer
      ensures Overlaid(old(buffer[..]), buffer[..], at, 512, sectors[sector], 0)
    {
      MemCpy(buffer, at, sectors[sector], 0, 512);
    }

    /** `block_write`. */
    method BlockWrite(sector: nat, data: seq<byte>)
      requires Formatted(sectors) && sector < |sectors| && |data| == 512
      modifies this
      ensures sectors == old(sectors)[sector := data] && Formatted(sectors)
    {
      sectors := sectors[sector := data];
    }
  }

  // ----- one step of the loops -----

  /** Bytes of the current sector to transfer: what is asked, what the file has, what the sector has. */
  function ChunkSize(length: off_t, size: off_t, offset: off_t): (chunk: off_t)
    requires length >= 0 && size > 0 && offset >= 0
    ensures chunk > 0 <==> offset < length
    ensures chunk > 0 ==> chunk <= size && offset + chunk <= length && offset % 512 + chunk <= 512
    ensures 0 < chunk < size ==> offset + chunk == length || (offset + chunk) % 512 == 0
  {
    var inodeLeft: off_t := length - offset;
    var sectorLeft: off_t := 512 - offset % 512;
    var minLeft := if inodeLeft < sectorLeft then inodeLeft else sectorLeft;
    if size < minLeft then size else minLeft
  }

  /** The chunk is a contiguous part of one sector. */
  lemma ChunkInSector(d: Sectors, x: Extent, offset: nat, k: nat)
    requires Formatted(d) && OnDisk(x, d) && offset + k < x.length && offset % 512 + k < 512
    ensures x.start + offset / 512 < |d|
    ensures FileByte(d, x, offset + k) == d[x.start + offset / 512][offset % 512 + k]
  {
    var i := x.start * 512 + offset + k;
    assert i / 512 == x.start + offset / 512;
    assert i % 512 == offset % 512 + k;
  }

  /** Transfers add up: a chunk, then the rest of the request. */
  lemma TransferStep(length: off_t, size: off_t, offset: nat, chunk: int, bounceOk: bool)
    requires length >= 0 && size > 0 && offset < 0x8000_0000 && chunk == ChunkSize(length, size, offset) > 0
    ensures bounceOk || (offset % 512 == 0 && chunk == 512) ==>
      Transferred(length, size, offset, bounceOk) == chunk + Transferred(length, size - chunk, offset + chunk, bounceOk)
    ensures !(bounceOk || (offset % 512 == 0 && chunk == 512)) ==>
      Transferred(length, size, offset, bounceOk) == 0
  {
  }

  /** Copying from the sector is copying from the file. */
  lemma ChunkOfFile(d: Sectors, x: Extent, offset: nat, chunk: nat, prev: seq<byte>, now: seq<byte>, at: nat)
    requires Formatted(d) && OnDisk(x, d) && IsChunk(x, offset, chunk) && x.start + offset / 512 < |d|
    requires Overlaid(prev, now, at, chunk, d[x.start + offset / 512], offset % 512)
    ensures Overlaid(prev, now, at, chunk, FileBytes(d, x), offset)
  {
    forall i | 0 <= i < |now|
      ensures now[i] == if at <= i < at + chunk then FileBytes(d, x)[offset + i - at] else prev[i]
    {
      if at <= i < at + chunk {
        ChunkInSector(d, x, offset, i - at);
      }
    }
  }

  /** A nonempty piece of the file inside one sector. */
  ghost predicate IsChunk(x: Extent, offset: nat, chunk: nat) {
    0 < chunk && offset + chunk <= x.length && offset % 512 + chunk <= 512
  }

  ghost predicate WholeSector(offset: nat, chunk: nat) {
    offset % 512 == 0 && chunk == 512
  }

  /** Overlaying one sector changes those bytes of the disk and no others. */
  lemma PatchOneSector(d: Sectors, s: nat, sector: seq<byte>, at: nat, n: nat, src: seq<byte>, from: nat)
    requires Formatted(d) && s < |d| && 0 < n && Overlaid(d[s], sector, at, n, src, from)
    ensures Formatted(d[s := sector])
    ensures forall i {:trigger DiskByte(d[s := sector], i)} :: 0 <= i < |d| * 512 ==>
      DiskByte(d[s := sector], i) ==
        var base := s * 512 + at; if base <= i < base + n then src[from + i - base] else DiskByte(d, i)
  {
    forall i | 0 <= i < |d| * 512
      ensures DiskByte(d[s := sector], i) ==
        var base := s * 512 + at; if base <= i < base + n then src[from + i - base] else DiskByte(d, i)
    {
      SectorOf(i, |d|);
      PatchOneByte(i, s, at, n);
    }
  }

  lemma PatchOneByte(i: nat, s: nat, at: nat, n: nat)
    requires at + n <= 512
    ensures s * 512 + at <= i < s * 512 + at + n <==> i / 512 == s && at <= i % 512 < at + n
    ensures i / 512 == s ==> i % 512 == i - s * 512
  {
  }

  /** The same on the flat array. */
  lemma PatchFile(d: Sectors, x: Extent, offset: nat, sector: seq<byte>, n: nat, src: seq<byte>, from: nat)
    requires Formatted(d) && OnDisk(x, d) && IsChunk(x, offset, n) && x.start + offset / 512 < |d|
    requires Overlaid(d[x.start + offset / 512], sector, offset % 512, n, src, from)
    ensures var d' := d[x.start + offset / 512 := sector];
      && Formatted(d') && Overlaid(FileBytes(d, x), FileBytes(d', x), offset, n, src, from)
      && SameOutside(d, d', x.start * 512 + offset, x.start * 512 + offset + n)
  {
    var s := x.start + offset / 512;
    var d' := d[s := sector];
    PatchOneSector(d, s, sector, offset % 512, n, src, from);
    var now := FileBytes(d', x);
    forall i | 0 <= i < |now|
      ensures now[i] == if offset <= i < offset + n then src[from + i - offset] else FileBytes(d, x)[i]
    {
      ExtentFits(x, d, i);
      assert now[i] == DiskByte(d', x.start * 512 + i);
    }
  }

  /** Outside the bytes lo..hi the disk is as it was. */
  ghost predicate SameOutside(d: Sectors, d': Sectors, lo: int, hi: int) {
    && Formatted(d) && Formatted(d') && |d'| == |d|
    && forall i {:trigger DiskByte(d', i)} :: 0 <= i < |d| * 512 && !(lo <= i < hi) ==>
         DiskByte(d', i) == DiskByte(d, i)
  }

  /** The part of the request that is done and the part that is left make up the whole. */
  ghost predicate Progress(length: off_t, size0: off_t, offset0: off_t, bounceOk: bool,
                           done: int, size: off_t, offset: off_t) {
    && 0 <= done && 0 <= offset0 && 0 <= length && offset == offset0 + done && size == size0 - done
    && (done > 0 ==> size >= 0 && offset <= length)
    && Transferred(length, size0, offset0, bounceOk) == done + Transferred(length, size, offset, bounceOk)
  }

  lemma ProgressStep(x: Extent, size0: off_t, offset0: off_t, bounceOk: bool,
                     done: int, size: off_t, offset: off_t, chunk: int)
    requires Progress(x.length, size0, offset0, bounceOk, done, size, offset)
    requires size > 0 && chunk == ChunkSize(x.length, size, offset) > 0
    ensures IsChunk(x, offset, chunk) && chunk <= size
    ensures bounceOk || WholeSector(offset, chunk) ==>
      Progress(x.length, size0, offset0, bounceOk, done + chunk, size - chunk, offset + chunk)
    ensures !(bounceOk || WholeSector(offset, chunk)) ==> done == Transferred(x.length, size0, offset0, bounceOk)
  {
    TransferStep(x.length, size, offset, chunk, bounceOk);
  }

  lemma ProgressEnds(length: off_t, size0: off_t, offset0: off_t, bounceOk: bool,
                     done: int, size: off_t, offset: off_t)
    requires Progress(length, size0, offset0, bounceOk, done, size, offset)
    ensures size <= 0 || offset >= length ==> done == Transferred(length, size0, offset0, bounceOk)
  {
  }

  // ----- inodes -----

  /** An in-memory inode. */
  class Inode {
    const sector: nat
    const data: Extent
    var openCnt: int
    var removed: bool
    var denyWriteCnt: int

    /** The initialisation in `inode_open`. */
    constructor (sector: nat, data: Extent)
      ensures this.sector == sector && this.data == data
      ensures openCnt == 1 && denyWriteCnt == 0 && !removed
    {
      this.sector, this.data := sector, data;
      openCnt, denyWriteCnt, removed := 1, 0, false;
    }

    /** Copying part of a sector out, through the bounce buffer unless it is the whole sector. */
    method ReadChunk(disk: Block, buffer: array<byte>, at: nat, sectorIdx: nat, sectorOfs: nat, chunkSize: nat,
                     bounce0: array?<byte>, bounceOk: bool)
      returns (ok: bool, bounce: array?<byte>)
      requires Formatted(disk.sectors) && sectorIdx < |disk.sectors| && sectorOfs + chunkSize <= 512
      requires at + chunkSize <= buffer.Length
      requires bounce0 != null ==> bounce0.Length == 512 && bounceOk && bounce0 != buffer
      modifies buffer, bounce0
      ensures ok <==> bounceOk || (sectorOfs == 0 && chunkSize == 512)
      ensures bounce == bounce0 || (bounce0 == null && fresh(bounce))
      ensures bounce != null ==> bounce.Length == 512 && bounceOk
      ensures Overlaid(old(buffer[..]), buffer[..], at, if ok then chunkSize else 0, disk.sectors[sectorIdx], sectorOfs)
    {
      bounce := bounce0;
      if sectorOfs == 0 && chunkSize == 512 {
        disk.BlockRead(sectorIdx, buffer, at);
      } else {
        if bounce == null {
          if !bounceOk {
            return false, null;
          }
          bounce := new byte[512];
        }
        disk.BlockRead(sectorIdx, bounce, 0);
        assert bounce[..] == disk.sectors[sectorIdx];
        MemCpy(buffer, at, bounce[..], sectorOfs, chunkSize);
      }
      ok := true;
    }

    /** The chunk at `offset`, found through `byte_to_sector`, after the `at` bytes already copied. */
    method ReadTurn(disk: Block, buffer: array<byte>, at: nat, offset: nat, chunkSize: nat,
                    bounce0: array?<byte>, bounceOk: bool, ghost offset0: nat, ghost before: seq<byte>)
      returns (ok: bool, bounce: array?<byte>)
      requires Formatted(disk.sectors) && OnDisk(data, disk.sectors) && IsChunk(data, offset, chunkSize)
      requires at + chunkSize <= buffer.Length && offset == offset0 + at
      requires bounce0 != null ==> bounce0.Length == 512 && bounceOk && bounce0 != buffer
      requires Overlaid(before, buffer[..], 0, at, FileBytes(disk.sectors, data), offset0)
      modifies buffer, bounce0
      ensures ok <==> bounceOk || WholeSector(offset, chunkSize)
      ensures bounce == bounce0 || (bounce0 == null && fresh(bounce))
      ensures bounce != null ==> bounce.Length == 512 && bounceOk
      ensures Overlaid(before, buffer[..], 0, if ok then at + chunkSize else at, FileBytes(disk.sectors, data), offset0)
    {
      ghost var file, mid := FileBytes(disk.sectors, data), buffer[..];
      ChunkInSector(disk.sectors, data, offset, 0);
      ok, bounce := ReadChunk(disk, buffer, at, data.start + offset / 512, offset % 512, chunkSize, bounce0, bounceOk);
      if ok {
        ChunkOfFile(disk.sectors, data, offset, chunkSize, mid, buffer[..], at);
        OverlayMore(before, mid, buffer[..], 0, at, chunkSize, file, offset0);
      } else {
        assert buffer[..] == mid;
      }
    }

    /** `inode_read_at`: the flat array's bytes, as many as the file has; the rest of the buffer stays. */
    method ReadAt(disk: Block, buffer: array<byte>, size0: off_t, offset0: off_t, bounceOk: bool)
      returns (bytesRead: off_t)
      requires Formatted(disk.sectors) && OnDisk(data, disk.sectors)
      requires offset0 >= 0 && size0 <= buffer.Length
      modifies buffer
      ensures bytesRead == Transferred(data.length, size0, offset0, bounceOk)
      ensures Overlaid(old(buffer[..]), buffer[..], 0, bytesRead, FileBytes(disk.sectors, data), offset0)
    {
      var size, offset := size0, offset0;
      var bounce: array?<byte> := null;
      bytesRead := 0;
      while size > 0
        invariant Progress(data.length, size0, offset0, bounceOk, bytesRead, size, offset)
        invariant bounce != null ==> fresh(bounce) && bounce.Length == 512 && bounceOk
        invariant Overlaid(old(buffer[..]), buffer[..], 0, bytesRead, FileBytes(disk.sectors, data), offset0)
        decreases size
      {
        var chunkSize := ChunkSize(data.length, size, offset);
        if chunkSize <= 0 {
          break;
        }
        ProgressStep(data, size0, offset0, bounceOk, bytesRead, size, offset, chunkSize);
        var ok;
        ok, bounce := ReadTurn(disk, buffer, bytesRead, offset, chunkSize, bounce, bounceOk, offset0, old(buffer[..]));
        if !ok {
          break;
        }
        size := size - chunkSize;
        offset := offset + chunkSize;
        bytesRead := bytesRead + chunkSize;
      }
      ProgressEnds(data.length, size0, offset0, bounceOk, bytesRead, size, offset);
    }

    /** Copying into part of a sector, through the bounce buffer unless it is the whole sector.  A bounced
        chunk never covers its sector, so the sector is always read first: the branch that would start
        from a sector of zeros is dead. */
    method WriteChunk(disk: Block, sectorIdx: nat, sectorOfs: nat, chunkSize: nat, src: seq<byte>, from: nat,
                      bounce0: array?<byte>, bounceOk: bool)
      returns (ok: bool, bounce: array?<byte>)
      requires Formatted(disk.sectors) && sectorIdx < |disk.sectors| && sectorOfs + chunkSize <= 512
      requires chunkSize > 0 && from + chunkSize <= |src|
      requires bounce0 != null ==> bounce0.Length == 512 && bounceOk
      modifies disk, bounce0
      ensures ok <==> bounceOk || (sectorOfs == 0 && chunkSize == 512)
      ensures bounce == bounce0 || (bounce0 == null && fresh(bounce))
      ensures bounce != null ==> bounce.Length == 512 && bounceOk
      ensures !ok ==> disk.sectors == old(disk.sectors)
      ensures ok ==> sectorIdx < |disk.sectors|
      ensures ok ==> disk.sectors == old(disk.sectors)[sectorIdx := disk.sectors[sectorIdx]]
      ensures ok ==> Overlaid(old(disk.sectors)[sectorIdx], disk.sectors[sectorIdx], sectorOfs, chunkSize, src, from)
    {
      bounce := bounce0;
      if sectorOfs == 0 && chunkSize == 512 {
        disk.BlockWrite(sectorIdx, src[from..from + 512]);
      } else {
        if bounce == null {
          if !bounceOk {
            return false, null;
          }
          bounce := new byte[512];
        }
        var sectorLeft := 512 - sectorOfs;
        if sectorOfs > 0 || chunkSize < sectorLeft {
          disk.BlockRead(sectorIdx, bounce, 0);
        } else {
          assert false;
        }
        assert bounce[..] == disk.sectors[sectorIdx];
        MemCpy(bounce, sectorOfs, src, from, chunkSize);
        disk.BlockWrite(sectorIdx, bounce[..]);
      }
      ok := true;
    }

    /** The chunk at `offset`, after the `done` bytes already written. */
    method WriteTurn(disk: Block, src: seq<byte>, done: nat, offset: nat, chunkSize: nat,
                     bounce0: array?<byte>, bounceOk: bool, ghost offset0: nat, ghost before: Sectors)
      returns (ok: bool, bounce: array?<byte>)
      requires Formatted(disk.sectors) && OnDisk(data, disk.sectors) && IsChunk(data, offset, chunkSize)
      requires done + chunkSize <= |src| && offset == offset0 + done
      requires bounce0 != null ==> bounce0.Length == 512 && bounceOk
      requires Written(before, disk.sectors, data, offset0, done, src)
      modifies disk, bounce0
      ensures ok <==> bounceOk || WholeSector(offset, chunkSize)
      ensures bounce == bounce0 || (bounce0 == null && fresh(bounce))
      ensures bounce != null ==> bounce.Length == 512 && bounceOk
      ensures Written(before, disk.sectors, data, offset0, if ok then done + chunkSize else done, src)
    {
      ghost var mid := disk.sectors;
      ChunkInSector(disk.sectors, data, offset, 0);
      var sectorIdx := data.start + offset / 512;
      ok, bounce := WriteChunk(disk, sectorIdx, offset % 512, chunkSize, src, done, bounce0, bounceOk);
      if ok {
        TurnWritten(before, mid, data, offset0, done, chunkSize, src, disk.sectors[sectorIdx]);
      }
    }

    /** `inode_write_at`: overlays the request, clipped to the file, on the flat array; no other byte of
        the disk changes, and nothing at all while writes are denied. */
    method WriteAt(disk: Block, src: seq<byte>, size0: off_t, offset0: off_t, bounceOk: bool)
      returns (bytesWritten: off_t)
      requires Formatted(disk.sectors) && OnDisk(data, disk.sectors)
      requires offset0 >= 0 && size0 <= |src|
      modifies disk
      ensures bytesWritten == if denyWriteCnt != 0 then 0 else Transferred(data.length, size0, offset0, bounceOk)
      ensures Written(old(disk.sectors), disk.sectors, data, offset0, bytesWritten, src)
    {
      bytesWritten := 0;
      if denyWriteCnt != 0 {
        return;
      }
      var size, offset := size0, offset0;
      var bounce: array?<byte> := null;
      while size > 0
        invariant Progress(data.length, size0, offset0, bounceOk, bytesWritten, size, offset)
        invariant bounce != null ==> fresh(bounce) && bounce.Length == 512 && bounceOk
        invariant Written(old(disk.sectors), disk.sectors, data, offset0, bytesWritten, src)
        decreases size
      {
        var chunkSize := ChunkSize(data.length, size, offset);
        if chunkSize <= 0 {
          break;
        }
        ProgressStep(data, size0, offset0, bounceOk, bytesWritten, size, offset, chunkSize);
        var ok;
        ok, bounce :=
          WriteTurn(disk, src, bytesWritten, offset, chunkSize, bounce, bounceOk, offset0, old(disk.sectors));
        if !ok {
          break;
        }
        size := size - chunkSize;
        offset := offset + chunkSize;
        bytesWritten := bytesWritten + chunkSize;
      }
      ProgressEnds(data.length, size0, offset0, bounceOk, bytesWritten, size, offset);
    }
  }

  /** The first `done` bytes of src have been laid over the file at `offset0`, and nothing else. */
  ghost predicate Written(d: Sectors, d': Sectors, x: Extent, offset0: nat, done: int, src: seq<byte>) {
    && Formatted(d) && Formatted(d') && |d'| == |d| && OnDisk(x, d) && 0 <= done
    && Overlaid(FileBytes(d, x), FileBytes(d', x), offset0, done, src, 0)
    && SameOutside(d, d', x.start * 512 + offset0, x.start * 512 + offset0 + done)
  }

  /** One turn: the sector that holds the chunk now has it laid over. */
  lemma TurnWritten(d: Sectors, mid: Sectors, x: Extent, offset0: nat, done: nat, chunk: nat,
                    src: seq<byte>, sector: seq<byte>)
    requires Written(d, mid, x, offset0, done, src) && OnDisk(x, mid) && IsChunk(x, offset0 + done, chunk)
    requires x.start + (offset0 + done) / 512 < |mid| && done + chunk <= |src|
    requires Overlaid(mid[x.start + (offset0 + done) / 512], sector, (offset0 + done) % 512, chunk, src, done)
    ensures Written(d, mid[x.start + (offset0 + done) / 512 := sector], x, offset0, done + chunk, src)
  {
    PatchFile(mid, x, offset0 + done, sector, chunk, src, done);
    WrittenMore(d, mid, mid[x.start + (offset0 + done) / 512 := sector], x, offset0, done, chunk, src);
  }

  lemma WrittenMore(d: Sectors, mid: Sectors, d': Sectors, x: Extent, offset0: nat, done: nat, chunk: nat,
                    src: seq<byte>)
    requires Written(d, mid, x, offset0, done, src) && 0 < chunk && Formatted(d') && |d'| == |mid|
    requires Overlaid(FileBytes(mid, x), FileBytes(d', x), offset0 + done, chunk, src, done)
    requires SameOutside(mid, d', x.start * 512 + offset0 + done, x.start * 512 + offset0 + done + chunk)
    ensures Written(d, d', x, offset0, done + chunk, src)
  {
    OverlayMore(FileBytes(d, x), FileBytes(mid, x), FileBytes(d', x), offset0, done, chunk, src, 0);
    forall i | 0 <= i < |d| * 512 && !(x.start * 512 + offset0 <= i < x.start * 512 + offset0 + done + chunk)
      ensures DiskByte(d', i) == DiskByte(d, i)
    {
      assert DiskByte(mid, i) == DiskByte(d, i);
    }
  }
}
