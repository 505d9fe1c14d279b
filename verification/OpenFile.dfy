/** Open files (file.c) and the swap file (fs.c). */
module OpenFile {
  import opened Common
  import opened DiskFormat
  import opened Ownership
  import opened FileData
  import opened Fs
  import opened Sets

  /** filewrite's chunk: max in file.c. */
  const CHUNK := (MAXOPBLOCKS - 1 - 1 - 2) / 2 * 512

  /** How many of n bytes at off filewrite gets onto the disk: all, or whole chunks up to the
      first that would pass the largest file size. */
  function Landed(size: nat, off: nat, n: int): nat {
    if n <= 0 || off > size || off > MAXBYTES then 0
    else if off + n <= MAXBYTES then n
    else (MAXBYTES - off) / CHUNK * CHUNK
  }

  lemma WholeChunks(i: nat, room: nat)
    requires i % CHUNK == 0 && i <= room < i + CHUNK
    ensures room / CHUNK * CHUNK == i
  {
    assert CHUNK == 1536;
    var q := i / 1536;
    assert i == q * 1536;
    assert room == q * 1536 + (room - i) && 0 <= room - i < 1536;
  }

  lemma NextChunk(i: nat)
    requires i % CHUNK == 0
    ensures (i + CHUNK) % CHUNK == 0
  {}

  lemma NoWrap(x: nat)
    requires x < UINT
    ensures x % UINT == x
  {}

  /** The chunk at i, of the n bytes to be written from off on. */
  lemma ChunkRefused(size0: nat, off: nat, n: nat, i: nat, size: nat, n1: nat)
    requires off + i <= size <= MAXBYTES && i < n && off <= size0 <= MAXBYTES
    requires i % CHUNK == 0 && n1 == Min(n - i, CHUNK)
    ensures WriteRefused(size, off + i, n1) ==> i == Landed(size0, off, n)
    ensures !WriteRefused(size, off + i, n1) ==> off + i + n1 <= MAXBYTES && (i + n1 == n || (i + n1) % CHUNK == 0)
  {
    NoWrap(off + i + n1);
    NextChunk(i);
    if off + i + n1 > MAXBYTES {
      WholeChunks(i, MAXBYTES - off);
    }
  }

  /** What one chunk logs fits an operation's reservation. */
  lemma OperationBudget(s0: Snap, s: Snap, i: nat, off: nat, n: nat)
    requires FileOk(s0, i) && 0 < n <= CHUNK && !WriteRefused(s0.inodes[i].size, off, n)
    ensures |WriteiLog(s0, s, i, off, n)| <= if off % BSIZE == 0 then MAXOPBLOCKS - 1 else MAXOPBLOCKS
  {
    hide HoleFree, WriteLog;
    if i < |s.slots| && |s.slots[i]| == NSLOT && TouchedEnd(off, n) <= MAXFILE {
      var size, log := s0.inodes[i].size, WriteLog(s0.slots[i], s.slots[i], off / BSIZE, Ceil(off + n));
      var inode := InodeBlock(i / IPB);
      ChunkBudget(s0.slots[i], s.slots[i], size, off, n, inode);
      SubsetSize(WriteiLog(s0, s, i, off, n), log + {inode});
    }
  }

  lemma SizeBound(s: Snap, i: nat)
    requires FilesOk(s) && i < |s.inodes|
    ensures s.inodes[i].size <= MAXBYTES
  {
    assert FileOk(s, i);
  }

  /** Every operation finished since then logged at most MAXOPBLOCKS blocks. */
  ghost predicate WithinBudget(before: seq<set<LogBlock>>, now: seq<set<LogBlock>>) {
    before <= now && forall k :: |before| <= k < |now| ==> |now[k]| <= MAXOPBLOCKS
  }

  /** What one call of writei on chunk src does to the files. */
  predicate ChunkDone(files: seq<seq<Byte>>, ip: nat, off: nat, src: seq<Byte>, files': seq<seq<Byte>>, r: int) {
    && ip < |files|
    && (if WriteRefused(|files[ip]|, off, |src|) then r == -1 && files' == files
        else r == |src| && files' == files[ip := Overwrite(files[ip], off, src)])
  }

  /** The first i of the n bytes of addr, in whole chunks, are in the file at off. */
  predicate Sofar(files0: seq<seq<Byte>>, ip: nat, off: nat, addr: seq<Byte>, n: int, i: nat, files: seq<seq<Byte>>) {
    && ip < |files0| && i <= |addr| && (i == 0 || i <= n) && (i < n ==> i % CHUNK == 0)
    && (if off <= |files0[ip]| then
          off + i <= Max(MAXBYTES, off) && files == files0[ip := Overwrite(files0[ip], off, addr[..i])]
        else i == 0 && files == files0)
  }

  lemma SofarStart(files: seq<seq<Byte>>, ip: nat, off: nat, addr: seq<Byte>, n: int)
    requires ip < |files|
    ensures Sofar(files, ip, off, addr, n, 0, files)
  {
    if off <= |files[ip]| {
      assert Overwrite(files[ip], off, addr[..0]) == files[ip];
    }
  }

  lemma SofarBound(files0: seq<seq<Byte>>, ip: nat, off: nat, addr: seq<Byte>, n: int, i: nat, files: seq<seq<Byte>>)
    requires Sofar(files0, ip, off, addr, n, i, files) && off < UINT
    ensures off + i < UINT && |files| == |files0|
  {}

  /** One more chunk: written, or refused and then this is where the write ends. */
  lemma SofarStep(files0: seq<seq<Byte>>, ip: nat, off: nat, addr: seq<Byte>, n: int, i: nat, n1: nat,
                  files: seq<seq<Byte>>, files': seq<seq<Byte>>, r: int)
    requires Sofar(files0, ip, off, addr, n, i, files) && i < n <= |addr| && n1 == Min(n - i, CHUNK)
    requires ip < |files| && |files0[ip]| <= MAXBYTES && |files[ip]| <= MAXBYTES
    requires ChunkDone(files, ip, off + i, addr[i..i + n1], files', r)
    ensures r < 0 ==> Sofar(files0, ip, off, addr, n, i, files') && i == Landed(|files0[ip]|, off, n)
    ensures r >= 0 ==> r == n1 && Sofar(files0, ip, off, addr, n, i + n1, files')
  {
    var c, piece := files0[ip], addr[i..i + n1];
    if off <= |c| {
      OverwriteMore(c, off, addr[..i], piece);
      assert addr[..i] + piece == addr[..i + n1];
      hide Overwrite;
      ChunkRefused(|c|, off, n, i, |files[ip]|, n1);
    }
  }

  lemma SofarEnd(files0: seq<seq<Byte>>, ip: nat, off: nat, addr: seq<Byte>, n: int, i: nat, files: seq<seq<Byte>>)
    requires Sofar(files0, ip, off, addr, n, i, files) && i >= n && |files0[ip]| <= MAXBYTES
    ensures i == Landed(|files0[ip]|, off, n)
  {}

  /** Within the largest size everything lands. */
  lemma LandsAll(files0: seq<seq<Byte>>, ip: nat, off: nat, addr: seq<Byte>, n: int, i: nat, files: seq<seq<Byte>>)
    requires Sofar(files0, ip, off, addr, n, i, files) && ip < |files0| && n <= |addr|
    requires i == Landed(|files0[ip]|, off, n)
    ensures 0 <= n && off <= |files0[ip]| && off + n <= MAXBYTES ==>
      i == n && files == files0[ip := Overwrite(files0[ip], off, addr[..n])]
  {}

  class File {
    const fs: FileSystem
    const ip: nat
    const readable: bool
    const writable: bool
    var off: nat

    constructor (fs: FileSystem, ip: nat, readable: bool, writable: bool)
      ensures this.fs == fs && this.ip == ip && this.readable == readable && this.writable == writable && off == 0
    {
      this.fs, this.ip, this.readable, this.writable, off := fs, ip, readable, writable, 0;
    }

    /** The file that is open. */
    ghost predicate Open()
      reads fs
    {
      fs.Valid() && ip < |fs.inodes|
    }

    lemma SizeLimit()
      requires Open()
      ensures ip < |fs.Files()| && |fs.Files()[ip]| <= MAXBYTES
    {
      FilesAt(fs.Now(), ip);
      SizeBound(fs.Now(), ip);
    }

    method Fileread(n: int) returns (r: int, dst: seq<Byte>)
      requires Open() && off < UINT && -UINT / 2 <= n < UINT / 2
      modifies `off, fs
      ensures Open() && fs.Files() == old(fs.Files())
      ensures !readable ==> r == -1 && dst == [] && off == old(off)
      ensures
        var c := old(fs.Files())[ip];
        readable ==>
          if ReadRefused(|c|, old(off), n % UINT) then r == -1 && dst == [] && off == old(off)
          else r == Min(n % UINT, |c| - old(off)) && dst == c[old(off)..old(off) + r] && off == old(off) + r
    {
      hide Core, FilesOk, FilesOf;
      FilesAt(fs.Now(), ip);
      dst := [];
      if !readable {
        return -1, [];
      }
      r, dst := fs.Readi(ip, off, n % UINT);
      if r > 0 {
        off := off + r;
      }
    }

    /** One chunk, in an operation of its own (begin_op to end_op): logs at most ten blocks. */
    method WriteChunk(src: seq<Byte>) returns (r: int, ok: bool)
      requires Open() && off < UINT && 0 < |src| <= CHUNK
      modifies `off, fs
      ensures !ok ==> AllMarked(fs.bitmap, fs.l.size) && fs.ops == old(fs.ops)
      ensures ok ==> Open()
      ensures ok ==>
        fs.ops == old(fs.ops) + [if r < 0 then {} else WriteiLog(old(fs.Now()), fs.Now(), ip, old(off), |src|)]
      ensures ok ==> |fs.ops[|fs.ops| - 1]| <= MAXOPBLOCKS
      ensures ok ==>
        ChunkDone(old(fs.Files()), ip, old(off), src, fs.Files(), r) && off == old(off) + if r < 0 then 0 else r
    {
      hide Core, FilesOk, FilesOf, Overwrite, AllMarked, WriteiLog;
      FilesAt(fs.Now(), ip);
      ghost var s0 := fs.Now();
      fs.BeginOp();
      r, ok := fs.Writei(ip, src, off);
      if ok {
        FilesLen(fs.Now());
        if !WriteRefused(s0.inodes[ip].size, off, |src|) {
          OperationBudget(s0, fs.Now(), ip, off, |src|);
        }
        fs.EndOp();
        if r > 0 {
          off := off + r;
        }
      }
    }

    /** Returns n or -1. landed is how much of addr is in the file. */
    method Filewrite(addr: seq<Byte>, n: int) returns (r: int, ok: bool, ghost landed: nat)
      requires Open() && off < UINT && n <= |addr| && n < UINT / 2
      modifies `off, fs
      ensures WithinBudget(old(fs.ops), fs.ops)
      ensures !ok ==> AllMarked(fs.bitmap, fs.l.size)
      ensures ok ==> Open() && off == old(off) + landed
      ensures ok && !writable ==> r == -1 && landed == 0 && fs.Files() == old(fs.Files())
      ensures ok && writable ==>
        && landed == Landed(|old(fs.Files())[ip]|, old(off), n)
        && r == (if landed == n then n else -1)
        && Sofar(old(fs.Files()), ip, old(off), addr, n, landed, fs.Files())
      ensures
        var c := old(fs.Files())[ip];
        ok && writable && 0 <= n && old(off) <= |c| && old(off) + n <= MAXBYTES ==>
          r == n && fs.Files() == old(fs.Files())[ip := Overwrite(c, old(off), addr[..n])]
    {
      hide Core, FilesOk, FilesOf, AllMarked, Sofar, ChunkDone, Landed, Overwrite;
      FilesAt(fs.Now(), ip);
      SizeBound(fs.Now(), ip);
      ghost var files0, off0 := fs.Files(), off;
      landed := 0;
      if !writable {
        return -1, true, 0;
      }
      var i := 0;
      ok := true;
      SofarStart(files0, ip, off, addr, n);
      while i < n
        invariant ok && Open() && off == off0 + i && WithinBudget(old(fs.ops), fs.ops)
        invariant 0 <= i && Sofar(files0, ip, off0, addr, n, i, fs.Files())
      {
        var n1 := n - i;
        if n1 > CHUNK {
          n1 := CHUNK;
        }
        ghost var files := fs.Files();
        FilesAt(fs.Now(), ip);
        SizeBound(fs.Now(), ip);
        SofarBound(files0, ip, off0, addr, n, i, files);
        r, ok := WriteChunk(addr[i..i + n1]);
        if !ok {
          landed := i;
          return;
        }
        SofarStep(files0, ip, off0, addr, n, i, n1, files, fs.Files(), r);
        if r < 0 {
          LandsAll(files0, ip, off0, addr, n, i, fs.Files());
          landed := i;
          return -1, true, i;
        }
        i := i + r;
      }
      SofarEnd(files0, ip, off0, addr, n, i, fs.Files());
      LandsAll(files0, ip, off0, addr, n, i, fs.Files());
      landed := i;
      r := if i == n then n else -1;
    }

    /** Writes the buffer at a given place in the swap file: all of it, or whole chunks of it up to
        the largest file size, and nothing past the end of the file. */
    method WriteToSwapFile(buffer: seq<Byte>, place: nat) returns (r: int, ok: bool)
      requires Open() && place < UINT && |buffer| < UINT / 2
      modifies `off, fs
      ensures WithinBudget(old(fs.ops), fs.ops)
      ensures !ok ==> AllMarked(fs.bitmap, fs.l.size)
      ensures ok ==> Open()
      ensures ok && !writable ==> r == -1 && fs.Files() == old(fs.Files())
      ensures
        var c := old(fs.Files())[ip];
        var n := Landed(|c|, place, |buffer|);
        ok && writable ==>
          && n <= |buffer| && r == (if n == |buffer| then n else -1)
          && fs.Files() ==
             if place > |c| then old(fs.Files()) else old(fs.Files())[ip := Overwrite(c, place, buffer[..n])]
    {
      hide Core, FilesOk, FilesOf, AllMarked, Overwrite, Landed;
      FilesAt(fs.Now(), ip);
      off := place;
      ghost var landed;
      r, ok, landed := Filewrite(buffer, |buffer|);
    }

    method ReadFromSwapFile(place: nat, size: nat) returns (r: int, dst: seq<Byte>)
      requires Open() && place < UINT && size < UINT / 2
      modifies `off, fs
      ensures Open() && fs.Files() == old(fs.Files())
      ensures !readable ==> r == -1 && dst == []
      ensures
        var c := old(fs.Files())[ip];
        readable ==>
          if ReadRefused(|c|, place, size) then r == -1 && dst == []
          else r == Min(size, |c| - place) && dst == c[place..place + r]
    {
      hide Core, FilesOk, FilesOf;
      FilesAt(fs.Now(), ip);
      off := place;
      r, dst := Fileread(size);
    }
  }
}
