/** `append_block` and the block allocator of the image builder, and what the kernel reads back. */
module MksfsImage {
  import opened SfsBlocks
  import opened MksfsFiles
  import Bitmaps
  import MksfsBitmap

  const FREEMAP: nat := 2
  const ROOT: nat := 1

  /** `Lost` is the failed assertion of a cache lookup; the other failures end the program with a message. */
  datatype Outcome = Appended | NoSpace | TooBig | Lost

  const MAX_NBLKS: nat := 0x8_0000

  /** The blocks before this one hold the super block, the root inode and the freemap. */
  function Base(n: nat): nat { FREEMAP + MksfsBitmap.MapBlocks(n) }

  predicate RowOk(row: seq<nat>, n: nat) {
    |row| == NENTRY && forall j: nat :: j < |row| ==> row[j] < n
  }

  ghost predicate CacheOk(cache: Cache, roles: Roles, next: nat, n: nat) {
    cache.Keys == roles.Keys && forall e: nat :: e in cache ==> Base(n) <= e < next && RowOk(cache[e], n)
  }

  /** Inodes, index blocks and the blocks of the metadata do not overlap. */
  ghost predicate PlacesOk(files: set<nat>, cached: set<nat>, next: nat, n: nat) {
    forall id: nat :: id in files ==> id !in cached && id < next && (id == ROOT || Base(n) <= id)
  }

  /** The block numbers of an inode are numbers of blocks. */
  predicate LinksOk(f: File, n: nat) {
    && |f.direct| == NDIRECT && (forall k: nat :: k < NDIRECT ==> f.direct[k] < n) && f.indirect < n && f.db < n
    && f.tag < 0x1_0000_0000
  }

  /** Every field of an inode fits its place on disk. */
  predicate InodeOk(f: File, n: nat) {
    LinksOk(f, n) && f.nblks <= LN_BLKS && f.size <= f.nblks * BLKSIZE
  }

  ghost predicate InodesOk(files: map<nat, File>, n: nat) {
    forall id: nat :: id in files ==> InodeOk(files[id], n)
  }

  /** Block `k` of the file holds what was written for it, away from inodes and index blocks. */
  predicate ChunkOk(disk: seq<Block>, taken: set<nat>, list: seq<nat>, chunks: seq<Block>, next: nat, n: nat, k: nat) {
    && k < |list| && k < |chunks| && Base(n) <= list[k] < next && list[k] !in taken
    && list[k] < |disk| && disk[list[k]] == chunks[k]
  }

  ghost predicate ChunksOk(disk: seq<Block>, taken: set<nat>, list: seq<nat>, chunks: seq<Block>, next: nat, n: nat) {
    |chunks| == |list| && forall k: nat :: k < |list| ==> ChunkOk(disk, taken, list, chunks, next, n, k)
  }

  ghost predicate DataOk(disk: seq<Block>, taken: set<nat>, lists: map<nat, seq<nat>>, chunks: map<nat, seq<Block>>,
                         next: nat, n: nat) {
    lists.Keys == chunks.Keys && forall id: nat :: id in lists ==> ChunksOk(disk, taken, lists[id], chunks[id], next, n)
  }

  ghost predicate FilesOk(cache: Cache, roles: Roles, files: map<nat, File>, lists: map<nat, seq<nat>>) {
    files.Keys == lists.Keys && forall id: nat :: id in files ==> FileOk(cache, roles, id, files[id], lists[id])
  }

  /** Only index blocks of file `id` differ. */
  ghost predicate OnlyMine(cache: Cache, roles: Roles, cache': Cache, roles': Roles, id: nat) {
    forall e: nat :: e in cache && e in roles && roles[e].id != id ==>
          e in cache' && cache'[e] == cache[e] && e in roles' && roles'[e] == roles[e]
  }

  lemma RestKeeps(cache: Cache, roles: Roles, cache': Cache, roles': Roles, files: map<nat, File>,
                  lists: map<nat, seq<nat>>, id: nat, f: File, list: seq<nat>)
    requires FilesOk(cache, roles, files, lists) && OnlyMine(cache, roles, cache', roles', id)
             && FileOk(cache', roles', id, f, list)
    ensures FilesOk(cache', roles', files[id := f], lists[id := list])
  {
    forall j: nat | j in files && j != id
      ensures FileOk(cache', roles', j, files[j], lists[j])
    {
      hide FileOk;
      ElsewhereKeeps(cache, roles, cache', roles', j, files[j], lists[j]);
    }
  }

  function NewFile(tag: nat): File {
    File(0, tag, 0, seq(NDIRECT, _ => 0), 0, 0, Null, Null)
  }

  lemma NewFileKeeps(cache: Cache, roles: Roles, files: map<nat, File>, lists: map<nat, seq<nat>>, id: nat, tag: nat)
    requires FilesOk(cache, roles, files, lists) && id !in files
    ensures FilesOk(cache, roles, files[id := NewFile(tag)], lists[id := []])
  {
  }

  // ----- what the kernel reads back -----

  /** The cached index blocks have been written to the image. */
  ghost predicate Flushed(disk: seq<Block>, cache: Cache) {
    forall e: nat :: e in cache ==> RowFlushed(disk, e, cache[e])
  }

  ghost predicate RowFlushed(disk: seq<Block>, e: nat, row: seq<nat>) {
    e < |disk| && |row| == NENTRY && forall j: nat :: j < NENTRY ==> Entry(disk[e], j) == row[j]
  }

  /** Writing a block of 32-bit words, entry by entry. */
  method FlushBlock(row: seq<nat>) returns (b: Block)
    requires RowOk(row, 0x1_0000_0000)
    ensures forall j: nat :: j < NENTRY ==> Entry(b, j) == row[j]
  {
    hide Entry, SetEntry;
    b := Zeros();
    var k: nat := 0;
    while k < NENTRY
      invariant k <= NENTRY && forall j: nat :: j < k ==> Entry(b, j) == row[j]
    {
      forall j: nat | j <= k
        ensures Entry(SetEntry(b, k, row[k]), j) == row[j]
      {
        EntryRoundTrip(b, k, row[k], j);
      }
      b := SetEntry(b, k, row[k]);
      k := k + 1;
    }
  }

  /** `struct inode` as words. */
  function InodeRow(f: File): (row: seq<nat>)
    requires |f.direct| == NDIRECT
    ensures |row| == NENTRY
  {
    seq(NENTRY, j requires 0 <= j => InodeWord(f, j))
  }

  function InodeWord(f: File, j: nat): nat
    requires |f.direct| == NDIRECT
  {
    if j == 0 then f.size
    else if j == 1 then f.tag
    else if j == 2 then f.nblks
    else if j < 3 + NDIRECT then f.direct[j - 3]
    else if j == 3 + NDIRECT then f.indirect
    else if j == 4 + NDIRECT then f.db
    else 0
  }

  /** `struct sfs_disk_inode` as the kernel reads it from a block. */
  function ReadDin(b: Block): Din {
    Din(Entry(b, 0), Entry(b, 2), seq(NDIRECT, k requires 0 <= k < NDIRECT => Entry(b, 3 + k)), Entry(b, 3 + NDIRECT))
  }

  lemma DinRead(disk: seq<Block>, id: nat, f: File)
    requires |f.direct| == NDIRECT && RowFlushed(disk, id, InodeRow(f))
    ensures ReadDin(disk[id]) == Din(f.size, f.nblks, f.direct, f.indirect)
    ensures Entry(disk[id], 1) == f.tag && Entry(disk[id], 16) == f.db
  {
    hide Entry;
    var d, row := ReadDin(disk[id]), InodeRow(f);
    assert row[1] == f.tag && row[16] == f.db;
    assert row[0] == f.size && row[2] == f.nblks && row[3 + NDIRECT] == f.indirect;
    forall k: nat | k < NDIRECT
      ensures d.direct[k] == f.direct[k]
    {
      assert row[3 + k] == f.direct[k];
    }
    assert d.direct == f.direct;
  }

  lemma InodeRowOk(f: File, n: nat)
    requires InodeOk(f, n) && n <= MAX_NBLKS
    ensures |f.direct| == NDIRECT && RowOk(InodeRow(f), 0x1_0000_0000)
  {
  }

  /** The block map of the kernel returns the `k`-th block that was appended, for every `k` it supports. */
  lemma KernelFollows(disk: seq<Block>, cache: Cache, roles: Roles, id: nat, f: File, list: seq<nat>, size: nat, k: nat)
    requires FileOk(cache, roles, id, f, list) && Flushed(disk, cache) && |disk| > 0 && f.nblks <= MAXBLKS && k < |list|
    ensures DinShape(Din(size, f.nblks, f.direct, f.indirect), |disk|)
    ensures BlockOf(disk, Din(size, f.nblks, f.direct, f.indirect), k) == list[k]
  {
    hide Entry;
    assert Entered(cache, f, list, k);
    if f.nblks > NDIRECT {
      assert RowFlushed(disk, f.indirect, cache[f.indirect]);
    }
  }

  /** Block `k` of file `id`, found from its inode on disk as the kernel does, holds `chunk`. */
  ghost predicate Readable(disk: seq<Block>, id: nat, k: nat, chunk: Block) {
    && id < |disk| && k < MAXBLKS
    && var d := ReadDin(disk[id]);
    DinShape(d, |disk|) && k < d.blocks && BlockOf(disk, d, k) < |disk| && disk[BlockOf(disk, d, k)] == chunk
  }

  /** The file as the kernel finds it: size, blocks and every byte of them. */
  ghost predicate FileReadable(disk: seq<Block>, id: nat, f: File, chunks: seq<Block>) {
    && id < |disk| && ReadDin(disk[id]).size == f.size && ReadDin(disk[id]).blocks == f.nblks == |chunks|
    && Entry(disk[id], 1) == f.tag
    && (f.nblks <= MAXBLKS ==> forall k: nat :: k < |chunks| ==> Readable(disk, id, k, chunks[k]))
  }

  lemma KernelReads(disk: seq<Block>, cache: Cache, roles: Roles, id: nat, f: File, list: seq<nat>,
                    chunks: seq<Block>, taken: set<nat>, next: nat, n: nat)
    requires FileOk(cache, roles, id, f, list) && Flushed(disk, cache) && RowFlushed(disk, id, InodeRow(f))
    requires ChunksOk(disk, taken, list, chunks, next, n)
    ensures FileReadable(disk, id, f, chunks)
  {
    DinRead(disk, id, f);
    if f.nblks <= MAXBLKS {
      forall k: nat | k < |chunks|
        ensures Readable(disk, id, k, chunks[k])
      {
        KernelFollows(disk, cache, roles, id, f, list, f.size, k);
        assert ChunkOk(disk, taken, list, chunks, next, n, k);
      }
    }
  }

  // ----- the super block and the mount -----

  const MAGIC: nat := 0x2f8d_be2a

  /** The words of the information text. */
  predicate InfoOk(info: seq<nat>) {
    |info| == 8 && forall k: nat :: k < 8 ==> info[k] < 0x1_0000_0000
  }

  /** `struct sfs_super` as words. */
  function SuperRow(n: nat, unused: nat, info: seq<nat>): (row: seq<nat>)
    requires |info| == 8
    ensures |row| == NENTRY
  {
    seq(NENTRY, j requires 0 <= j => SuperWord(n, unused, info, j))
  }

  function SuperWord(n: nat, unused: nat, info: seq<nat>, j: nat): nat
    requires |info| == 8
  {
    if j == 0 then MAGIC else if j == 1 then n else if j == 2 then unused else if j < 11 then info[j - 3] else 0
  }

  lemma SuperRowOk(n: nat, unused: nat, info: seq<nat>)
    requires InfoOk(info) && n <= MAX_NBLKS && unused <= n
    ensures RowOk(SuperRow(n, unused, info), 0x1_0000_0000)
    ensures SuperRow(n, unused, info)[0] == MAGIC && SuperRow(n, unused, info)[1] == n
    ensures SuperRow(n, unused, info)[2] == unused
    ensures forall k: nat :: k < 8 ==> SuperRow(n, unused, info)[3 + k] == info[k]
  {
  }

  ghost predicate SuperWritten(disk: seq<Block>, n: nat, unused: nat, info: seq<nat>) {
    && |disk| > 0 && |info| == 8
    && Entry(disk[0], 0) == 0x2f8d_be2a && Entry(disk[0], 1) == n && Entry(disk[0], 2) == unused
    && forall k: nat :: k < 8 ==> Entry(disk[0], 3 + k) == info[k]
  }

  /** The freemap on disk has free bits for the blocks from `next` on. */
  ghost predicate MapWritten(disk: seq<Block>, next: nat, n: nat) {
    2 <= Base(n) <= |disk| && MksfsBitmap.MapWritten(disk[2..Base(n)], next, n)
  }

  /** `Damaged` is the failed assertion on the count. */
  datatype MountStatus = Mounted(unused: nat) | WrongMagic | TooShort | Damaged

  /** What becomes of mounting a device: what its first block says, against the bits of its freemap. */
  ghost function MountResult(disk: seq<Block>): MountStatus
    requires |disk| > 0
  {
    var n, unused := Entry(disk[0], 1), Entry(disk[0], 2);
    if Entry(disk[0], 0) != MAGIC then WrongMagic
    else if n > |disk| || Base(n) > |disk| then TooShort
    else
      var words := MksfsBitmap.AllWords(disk[FREEMAP..Base(n)]);
      if CountFree(Bitmaps.Bits(words, MksfsBitmap.MapBlocks(n) * MksfsBitmap.BLKBITS)) == unused then Mounted(unused)
      else Damaged
  }

  /** `sfs_do_mount`, as far as it reads the device. */
  method Mount(disk: seq<Block>) returns (r: MountStatus)
    requires |disk| > 0
    ensures r == MountResult(disk)
  {
    hide Entry;
    if Entry(disk[0], 0) != MAGIC {
      return WrongMagic;
    }
    var n := Entry(disk[0], 1);
    if n > |disk| || Base(n) > |disk| {
      return TooShort;
    }
    var words := MksfsBitmap.LoadFreemap(disk[FREEMAP..Base(n)]);
    var counted := MksfsBitmap.CountUnused(words, MksfsBitmap.MapBlocks(n) * MksfsBitmap.BLKBITS);
    return if counted == Entry(disk[0], 2) then Mounted(counted) else Damaged;
  }

  class Builder {
    const ninos: nat
    var nextIno: nat
    var unused: nat
    var cache: Cache
    var files: map<nat, File>
    var disk: seq<Block>
    ghost var lists: map<nat, seq<nat>>
    ghost var chunks: map<nat, seq<Block>>
    ghost var roles: Roles

    ghost predicate Counts()
      reads this
    {
      Base(ninos) <= nextIno <= ninos <= MAX_NBLKS && unused == ninos - nextIno && CacheOk(cache, roles, nextIno, ninos)
    }

    ghost predicate Valid()
      reads this
    {
      && Counts() && FilesOk(cache, roles, files, lists) && InodesOk(files, ninos) && |disk| == ninos
      && PlacesOk(files.Keys, cache.Keys, nextIno, ninos)
      && DataOk(disk, files.Keys + cache.Keys, lists, chunks, nextIno, ninos)
    }

    /** `create_sfs`: the root directory, and everything behind the freemap unused. */
    constructor (img: seq<Block>, tag: nat)
      requires Base(|img|) < |img| <= MAX_NBLKS && tag < 0x1_0000_0000
      ensures Valid() && ninos == |img| && nextIno == Base(|img|) && lists == map[ROOT := []]
              && chunks == map[ROOT := []]
    {
      ninos, nextIno := |img|, Base(|img|);
      unused := |img| - Base(|img|);
      cache, roles, disk := map[], map[], img;
      files, lists, chunks := map[ROOT := NewFile(tag)], map[ROOT := []], map[ROOT := []];
    }

    /** `alloc_cache_inode` for a new file or directory. */
    method AddInode(tag: nat) returns (ok: bool, id: nat)
      requires Valid() && tag < 0x1_0000_0000
      modifies this
      ensures ok <==> old(nextIno) < ninos
      ensures ok ==> Valid() && id == old(nextIno) && id !in old(files)
      ensures ok ==>
                lists == old(lists)[id := []] && chunks == old(chunks)[id := []]
                && files == old(files)[id := NewFile(tag)]
    {
      hide FilesOk, InodesOk, PlacesOk, DataOk, CacheOk;
      Fresh(files.Keys, cache.Keys, nextIno, ninos);
      ghost var next, taken := nextIno, files.Keys + cache.Keys;
      ok, id := AllocIno();
      if ok {
        NewFileKeeps(cache, roles, files, lists, id, tag);
        NewInodeOk(files, id, tag, ninos);
        PlacesMore(files.Keys, cache.Keys, next, ninos);
        DataMore(disk, taken, lists, chunks, next, ninos, taken + {id}, nextIno);
        NoChunks(disk, taken + {id}, lists, chunks, nextIno, ninos, id);
        files, lists, chunks := files[id := NewFile(tag)], lists[id := []], chunks[id := []];
        assert files.Keys == old(files.Keys) + {id};
        assert files.Keys + cache.Keys == taken + {id};
      }
    }

    /** `sfs_alloc_ino`: blocks are handed out in order. */
    method AllocIno() returns (ok: bool, ino: nat)
      requires Counts()
      modifies this`nextIno, this`unused
      ensures Counts() && (ok <==> old(nextIno) < ninos)
      ensures if ok then ino == old(nextIno) && nextIno == ino + 1 && ino !in cache
              && ino != 0 else nextIno == old(nextIno)
    {
      if nextIno < ninos {
        unused := unused - 1;
        nextIno := nextIno + 1;
        return true, nextIno - 1;
      }
      return false, 0;
    }

    /** `update_cache`: a zero entry gets a new block, otherwise the block at hand is the one wanted. */
    method UpdateCache(cb: Link, ino: nat, ghost role: Role) returns (r: Outcome, e: nat)
      requires Counts() && ino < ninos
      modifies this`nextIno, this`unused, this`cache, this`roles
      ensures Counts() && e < ninos
      ensures r == Lost <==> ino != 0 && cb != At(ino)
      ensures r == NoSpace <==> ino == 0 && old(nextIno) >= ninos
      ensures r != Appended || ino != 0 ==>
                cache == old(cache) && roles == old(roles) && e == ino && nextIno == old(nextIno)
      ensures r == Appended && ino == 0 ==>
                && e !in old(cache) && e != 0 && e == old(nextIno) && nextIno == e + 1
                && cache == old(cache)[e := NoEntries()] && roles == old(roles)[e := role]
      ensures r != TooBig
    {
      e := ino;
      if ino == 0 {
        var ok, made := AllocIno();
        if !ok {
          return NoSpace, e;
        }
        e := made;
        EmptyRowOk(ninos);
        hide RowOk;
        cache := cache[e := NoEntries()];
        roles := roles[e := role];
      } else if cb != At(ino) {
        return Lost, e;
      }
      return Appended, e;
    }

    /** `append_block`: fails exactly when the file is full or the index blocks it needs cannot be had. */
    method AppendBlock(id: nat, b: nat, size: nat) returns (r: Outcome)
      requires Valid() && id in files && Base(ninos) <= b < nextIno && b !in cache && b !in files && size <= BLKSIZE
      modifies this`nextIno, this`unused, this`cache, this`files, this`lists, this`chunks, this`roles
      ensures r != Lost
      ensures r == TooBig <==> old(files)[id].nblks >= 32768
      ensures r == NoSpace <==> old(files)[id].nblks < LN_BLKS && old(unused) < NewBlocks(old(files)[id].nblks)
      ensures r == Appended ==> Valid() && nextIno == old(nextIno) + NewBlocks(old(files)[id].nblks)
      ensures r == Appended ==> id in old(lists) && lists == old(lists)[id := old(lists)[id] + [b]]
      ensures r == Appended ==>
                id in old(chunks) && b < |disk| && chunks == old(chunks)[id := old(chunks)[id] + [disk[b]]]
      ensures r == Appended ==> id in files && files == old(files)[id := files[id]]
      ensures r == Appended ==>
                files[id].size == old(files)[id].size + size && files[id].nblks == old(files)[id].nblks + 1
    {
      hide FilesOk, FileOk, CacheOk, InodesOk, LinksOk, PlacesOk, DataOk, NewBlocks, OnlyMine, Grown;
      FileAt(cache, roles, files, lists, id);
      InodeAt(files, id, ninos);
      var f := files[id];
      ghost var list, c, o, next, taken := lists[id], cache, roles, nextIno, files.Keys + cache.Keys;
      if f.nblks >= LN_BLKS {
        return TooBig;
      }
      SizeKeeps(cache, roles, id, f, list, f.size + size, ninos);
      r, f := Enter(id, f.(size := f.size + size), b, list);
      if r != Appended {
        return;
      }
      OneLonger(files, id, f, ninos);
      f := f.(nblks := f.nblks + 1);
      RestKeeps(c, o, cache, roles, files, lists, id, f, list + [b]);
      PlacesGrow(files.Keys, c.Keys, cache.Keys, next, nextIno, ninos);
      TakenGrow(files.Keys, c.Keys, cache.Keys, next);
      DataMore(disk, taken, lists, chunks, next, ninos, files.Keys + cache.Keys, nextIno);
      BlockApart(files.Keys, c.Keys, cache.Keys, next, b);
      DataAppend(disk, files.Keys + cache.Keys, lists, chunks, nextIno, ninos, id, b);
      files := files[id := f];
      lists, chunks := lists[id := list + [b]], chunks[id := chunks[id] + [disk[b]]];
      assert files.Keys == old(files).Keys;
      return Appended;
    }

    /** The body of the loop in `open_file`: a new block, the bytes written to it, its number appended. */
    method AddChunk(id: nat, bytes: seq<byte>) returns (r: Outcome)
      requires Valid() && id in files && |bytes| <= BLKSIZE
      modifies this
      ensures r != Lost && (r == TooBig <==> old(unused) > 0 && old(files)[id].nblks >= LN_BLKS)
      ensures r == NoSpace <==>
                old(unused) == 0 || (old(files)[id].nblks < LN_BLKS && old(unused) <= NewBlocks(old(files)[id].nblks))
      ensures r == Appended ==>
                Valid() && id in old(chunks) && chunks == old(chunks)[id := old(chunks)[id] + [Padded(bytes)]]
      ensures r == Appended ==>
                id in files && files == old(files)[id := files[id]] && files[id].size == old(files)[id].size + |bytes|
      ensures r == Appended ==>
                && files[id].nblks == old(files)[id].nblks + 1
                && unused == old(unused) - 1 - NewBlocks(old(files)[id].nblks) && unused >= 0
    {
      hide FilesOk, InodesOk, PlacesOk, DataOk, CacheOk, NewBlocks, Padded;
      Fresh(files.Keys, cache.Keys, nextIno, ninos);
      ghost var next, taken := nextIno, files.Keys + cache.Keys;
      var ok, b := AllocIno();
      if !ok {
        return NoSpace;
      }
      PlacesLater(files.Keys, cache.Keys, next, ninos);
      DataLater(disk, taken, lists, chunks, next, ninos, Padded(bytes));
      disk := disk[b := Padded(bytes)];
      r := AppendBlock(id, b, |bytes|);
    }

    /** `open_file`: the file of the host, a block at a time. */
    method OpenFile(id: nat, content: seq<byte>) returns (r: Outcome)
      requires Valid() && id in files
      modifies this
      ensures r != Lost
      ensures r == Appended <==>
                var n, k := old(files)[id].nblks, |Chunks(content)|; n + k <= LN_BLKS && Need(n, k) <= old(unused)
      ensures r == Appended ==>
                Valid() && id in old(chunks) && chunks == old(chunks)[id := old(chunks)[id] + Chunks(content)]
      ensures r == Appended ==>
                id in files && files == old(files)[id := files[id]] && files[id].size == old(files)[id].size + |content|
    {
      hide FilesOk, InodesOk, PlacesOk, DataOk, CacheOk, Padded, Chunks, NewBlocks;
      Listed(cache, roles, files, lists, disk, chunks, nextIno, ninos, id);
      var rest := content;
      ghost var before, done := chunks, [];
      ghost var total, need := files[id].nblks + |Chunks(content)|, Need(files[id].nblks, |Chunks(content)|);
      assert before[id] + done == before[id];
      while rest != []
        invariant Valid() && id in files && files == old(files)[id := files[id]]
        invariant files[id].size + |rest| == old(files)[id].size + |content|
        invariant id in before && chunks == before[id := before[id] + done] && Chunks(content) == done + Chunks(rest)
        invariant files[id].nblks + |Chunks(rest)| == total
        invariant need - Need(files[id].nblks, |Chunks(rest)|) == old(unused) - unused
        decreases |rest|
      {
        var n := if |rest| < BLKSIZE then |rest| else BLKSIZE;
        NextChunk(rest, n);
        r := AddChunk(id, rest[..n]);
        if r != Appended {
          return;
        }
        assert before[id] + done + [Padded(rest[..n])] == before[id] + (done + [Padded(rest[..n])]);
        assert done + ([Padded(rest[..n])] + Chunks(rest[n..])) == done + [Padded(rest[..n])] + Chunks(rest[n..]);
        done := done + [Padded(rest[..n])];
        rest := rest[n..];
      }
      NoChunk();
      assert done + [] == done;
      InodeAt(files, id, ninos);
      return Appended;
    }

    /** The rest of `close_sfs`: cached index blocks and inodes go to their blocks. */
    method FlushCache()
      requires Valid()
      modifies this`disk
      ensures |disk| == ninos && Flushed(disk, cache) && forall b: nat :: b < ninos && b !in cache ==>
                disk[b] == old(disk)[b]
    {
      hide FilesOk, InodesOk, PlacesOk, DataOk, RowOk, RowFlushed, Entry, RowsFlushed, Flushed, CacheOk;
      NoRowFlushed(disk, cache);
      var todo := cache.Keys;
      while todo != {}
        invariant todo <= cache.Keys && |disk| == ninos
        invariant RowsFlushed(disk, cache, todo)
        invariant forall b: nat :: b < ninos && b !in cache ==> disk[b] == old(disk)[b]
        decreases |todo|
      {
        var e :| e in todo;
        RowFits(cache, roles, nextIno, ninos, e);
        var b := FlushBlock(cache[e]);
        MoreRows(disk, cache, todo, e, b);
        disk := disk[e := b];
        todo := todo - {e};
      }
      AllRows(disk, cache);
    }

    method FlushInodes()
      requires Valid()
      modifies this`disk
      ensures |disk| == ninos && InodesFlushed(disk, files, {})
      ensures forall b: nat :: b < ninos && b !in files ==> disk[b] == old(disk)[b]
    {
      hide FilesOk, CacheOk, DataOk, RowOk, RowFlushed, Entry, InodeRow, LinksOk, InodesOk, InodeOk, InodesFlushed;
      NoneFlushed(disk, files);
      var todo := files.Keys;
      while todo != {}
        invariant todo <= files.Keys && |disk| == ninos
        invariant InodesFlushed(disk, files, todo)
        invariant forall b: nat :: b < ninos && b !in files ==> disk[b] == old(disk)[b]
        decreases |todo|
      {
        var id :| id in todo;
        InodeAt(files, id, ninos);
        InodeRowOk(files[id], ninos);
        var b := FlushBlock(InodeRow(files[id]));
        MoreFlushed(disk, files, todo, id, b);
        disk := disk[id := b];
        todo := todo - {id};
      }
    }

    /** `close_sfs`, which writes no block twice, so that the order of the hash lists does not matter: the kernel
        then finds the super block, the freemap, and every file, with its size and all its bytes. */
    method Close(info: seq<nat>)
      requires Valid() && InfoOk(info)
      modifies this`disk
      ensures Valid() && |disk| == ninos && SuperWritten(disk, ninos, unused, info)
      ensures MapWritten(disk, nextIno, ninos)
      ensures forall id: nat :: id in files ==> id in chunks && FileReadable(disk, id, files[id], chunks[id])
    {
      hide FilesOk, CacheOk, DataOk, InodesOk, PlacesOk, FileReadable, Flushed, RowFlushed, MksfsBitmap.MapWritten,
             Entry;
      MetaApart(files.Keys, cache, roles, nextIno, ninos);
      ghost var taken, d0 := files.Keys + cache.Keys, disk;
      var freemap := MksfsBitmap.CloseFreemap(nextIno, ninos);
      SuperRowOk(ninos, unused, info);
      var super := FlushBlock(SuperRow(ninos, unused, info));
      disk := [super] + disk[ROOT..FREEMAP] + freemap + disk[Base(ninos)..];
      DataUntouched(d0, disk, taken, lists, chunks, nextIno, ninos);
      ghost var d1 := disk;
      FlushCache();
      DataUntouched(d1, disk, taken, lists, chunks, nextIno, ninos);
      ghost var d2 := disk;
      FlushInodes();
      DataUntouched(d2, disk, taken, lists, chunks, nextIno, ninos);
      FlushedKept(d2, disk, cache, roles, files.Keys, nextIno, ninos);
      AllReadable(disk, cache, roles, files, lists, chunks, taken, nextIno, ninos);
      assert disk[0] == super;
      assert disk[FREEMAP..Base(ninos)] == freemap;
    }

    /** An image that was built and closed is mounted, with the count of unused blocks the builder had. */
    method CloseAndMount(info: seq<nat>) returns (r: MountStatus)
      requires Valid() && InfoOk(info)
      modifies this`disk
      ensures Valid() && r == Mounted(unused)
    {
      hide FilesOk, CacheOk, DataOk, InodesOk, PlacesOk, FileReadable, Entry, MksfsBitmap.MapWritten;
      Close(info);
      MksfsBitmap.CountWritten(disk[FREEMAP..Base(ninos)], nextIno, ninos);
      r := Mount(disk);
    }

    method Enter(id: nat, f: File, b: nat, ghost list: seq<nat>) returns (r: Outcome, f': File)
      requires Counts() && FileOk(cache, roles, id, f, list) && f.nblks < LN_BLKS && LinksOk(f, ninos) && b < ninos
      modifies this`nextIno, this`unused, this`cache, this`roles
      ensures Counts() && (r == Appended || r == NoSpace)
      ensures r == NoSpace <==> old(unused) < NewBlocks(f.nblks)
      ensures r == Appended ==> nextIno == old(nextIno) + NewBlocks(f.nblks)
      ensures r == Appended ==> f'.nblks == f.nblks && f'.size == f.size && LinksOk(f', ninos)
      ensures r == Appended ==> FileOk(cache, roles, id, f'.(nblks := f.nblks + 1), list + [b])
      ensures r == Appended ==>
                OnlyMine(old(cache), old(roles), cache, roles, id) && Grown(old(cache).Keys, cache.Keys, old(nextIno))
    {
      if f.nblks < NDIRECT {
        DirectKeeps(cache, roles, id, f, list, b);
        f' := f.(direct := f.direct[f.nblks := b]);
        return Appended, f';
      }
      hide FileOk, CacheOk, OnlyMine, Grown;
      if f.nblks < L1_BLKS {
        r, f' := EnterIndexed(id, f, b, list);
      } else {
        r, f' := EnterGrouped(id, f, b, list);
      }
    }

    method EnterIndexed(id: nat, f: File, b: nat, ghost list: seq<nat>) returns (r: Outcome, f': File)
      requires Counts() && FileOk(cache, roles, id, f, list) && NDIRECT <= f.nblks < L1_BLKS && LinksOk(f, ninos)
               && b < ninos
      modifies this`nextIno, this`unused, this`cache, this`roles
      ensures Counts() && (r == Appended || r == NoSpace)
      ensures r == NoSpace <==> old(unused) < NewBlocks(f.nblks)
      ensures r == Appended ==> nextIno == old(nextIno) + NewBlocks(f.nblks)
      ensures r == Appended ==> f'.nblks == f.nblks && f'.size == f.size && LinksOk(f', ninos)
      ensures r == Appended ==> FileOk(cache, roles, id, f'.(nblks := f.nblks + 1), list + [b])
      ensures r == Appended ==>
                OnlyMine(old(cache), old(roles), cache, roles, id) && Grown(old(cache).Keys, cache.Keys, old(nextIno))
    {
      hide CacheOk;
      f' := f;
      IndexFacts(cache, roles, id, f, list);
      var e;
      r, e := UpdateCache(f.l1, f.indirect, Single(id));
      if r != Appended {
        return;
      }
      f' := f.(indirect := e, l1 := At(e));
      if f.nblks == NDIRECT {
        ToIndexed(old(cache), old(roles), id, f, list, e);
      } else {
        IsIndexed(cache, roles, id, f, list);
        assert f' == f;
      }
      assert Indexed(cache, roles, id, f', list);
      hide FileOk;
      IndexKeeps(cache, roles, id, f', list, b);
      PutOk(cache, roles, nextIno, ninos, e, f.nblks - NDIRECT, b);
      cache := Put(cache, e, f.nblks - NDIRECT, b);
    }

    method EnterGrouped(id: nat, f: File, b: nat, ghost list: seq<nat>) returns (r: Outcome, f': File)
      requires Counts() && FileOk(cache, roles, id, f, list) && L1_BLKS <= f.nblks < LN_BLKS && LinksOk(f, ninos)
               && b < ninos
      modifies this`nextIno, this`unused, this`cache, this`roles
      ensures Counts() && (r == Appended || r == NoSpace)
      ensures r == NoSpace <==> old(unused) < NewBlocks(f.nblks)
      ensures r == Appended ==> nextIno == old(nextIno) + NewBlocks(f.nblks)
      ensures r == Appended ==> f'.nblks == f.nblks && f'.size == f.size && LinksOk(f', ninos)
      ensures r == Appended ==> FileOk(cache, roles, id, f'.(nblks := f.nblks + 1), list + [b])
      ensures r == Appended ==>
                OnlyMine(old(cache), old(roles), cache, roles, id) && Grown(old(cache).Keys, cache.Keys, old(nextIno))
    {
      hide FileOk, Topped, Grouped, CacheOk;
      r, f' := EnterTop(id, f, list);
      if r != Appended {
        return;
      }
      ghost var c, o := cache, roles;
      r, f' := EnterLeaf(id, f', list);
      if r != Appended {
        return;
      }
      GroupedFacts(cache, roles, id, f', list);
      GroupKeeps(cache, roles, id, f', list, b);
      var e := f'.l1.ino;
      PutOk(cache, roles, nextIno, ninos, e, (f.nblks - L1_BLKS) % NENTRY, b);
      cache := Put(cache, e, (f.nblks - L1_BLKS) % NENTRY, b);
    }

    /** The first `update_cache` of a doubly indirect entry. */
    method EnterTop(id: nat, f: File, ghost list: seq<nat>) returns (r: Outcome, f': File)
      requires Counts() && FileOk(cache, roles, id, f, list) && L1_BLKS <= f.nblks < LN_BLKS && LinksOk(f, ninos)
      modifies this`nextIno, this`unused, this`cache, this`roles
      ensures Counts() && (r == Appended || r == NoSpace)
      ensures r == NoSpace <==> f.nblks == L1_BLKS && old(unused) == 0
      ensures nextIno == old(nextIno) + (if f.nblks == L1_BLKS && r == Appended then 1 else 0)
      ensures r == Appended ==>
                f'.nblks == f.nblks && f'.size == f.size && LinksOk(f', ninos) && Topped(cache, roles, id, f', list)
      ensures r == Appended ==>
                OnlyMine(old(cache), old(roles), cache, roles, id) && Grown(old(cache).Keys, cache.Keys, old(nextIno))
    {
      hide CacheOk;
      f' := f;
      TopFacts(cache, roles, id, f, list);
      var e;
      r, e := UpdateCache(f.l2, f.db, Top(id));
      if r != Appended {
        return;
      }
      f' := f.(db := e, l2 := At(e));
      if f.nblks == L1_BLKS {
        ToTopped(old(cache), old(roles), id, f, list, e);
      } else {
        IsTopped(cache, roles, id, f, list);
        assert f' == f;
      }
    }

    /** The second one, for the index block of the group. */
    method EnterLeaf(id: nat, f: File, ghost list: seq<nat>) returns (r: Outcome, f': File)
      requires Counts() && Topped(cache, roles, id, f, list) && LinksOk(f, ninos)
      modifies this`nextIno, this`unused, this`cache, this`roles
      ensures Counts() && (r == Appended || r == NoSpace)
      ensures r == NoSpace <==> Slot(f.nblks) == 0 && old(unused) == 0
      ensures nextIno == old(nextIno) + (if Slot(f.nblks) == 0 && r == Appended then 1 else 0)
      ensures r == Appended ==>
                f'.nblks == f.nblks && f'.size == f.size && LinksOk(f', ninos) && Grouped(cache, roles, id, f', list)
      ensures r == Appended ==>
                OnlyMine(old(cache), old(roles), cache, roles, id) && Grown(old(cache).Keys, cache.Keys, old(nextIno))
    {
      hide CacheOk;
      f' := f;
      GroupEntry(cache, roles, id, f, list);
      var g := (f.nblks - L1_BLKS) / NENTRY;
      EntryBelow(cache, roles, nextIno, ninos, f.db, g);
      var e;
      r, e := UpdateCache(f.l1, cache[f.db][g], Leaf(id, g));
      if r != Appended {
        return;
      }
      f' := f.(l1 := At(e));
      if cache[f.db][g] == 0 {
        ToGrouped(old(cache), old(roles), id, f, list, e);
        PutOk(cache, roles, nextIno, ninos, f.db, g, e);
        cache := Put(cache, f.db, g, e);
      } else {
        IsGrouped(cache, roles, id, f, list);
        assert f' == f;
      }
    }
  }

  ghost predicate InodesFlushed(disk: seq<Block>, files: map<nat, File>, todo: set<nat>) {
    forall id: nat :: id in files && id !in todo ==>
          |files[id].direct| == NDIRECT && RowFlushed(disk, id, InodeRow(files[id]))
  }

  lemma NoneFlushed(disk: seq<Block>, files: map<nat, File>)
    ensures InodesFlushed(disk, files, files.Keys)
  {
  }

  lemma MoreFlushed(disk: seq<Block>, files: map<nat, File>, todo: set<nat>, id: nat, b: Block)
    requires InodesFlushed(disk, files, todo) && id in files && id < |disk| && |files[id].direct| == NDIRECT
    requires forall j: nat :: j < NENTRY ==> Entry(b, j) == InodeRow(files[id])[j]
    ensures InodesFlushed(disk[id := b], files, todo - {id})
  {
    hide Entry, InodeRow;
  }

  ghost predicate RowsFlushed(disk: seq<Block>, cache: Cache, todo: set<nat>) {
    forall e: nat :: e in cache && e !in todo ==> RowFlushed(disk, e, cache[e])
  }

  lemma NoRowFlushed(disk: seq<Block>, cache: Cache)
    ensures RowsFlushed(disk, cache, cache.Keys)
  {
  }

  lemma MoreRows(disk: seq<Block>, cache: Cache, todo: set<nat>, e: nat, b: Block)
    requires RowsFlushed(disk, cache, todo) && e in cache && e < |disk| && |cache[e]| == NENTRY
    requires forall j: nat :: j < NENTRY ==> Entry(b, j) == cache[e][j]
    ensures RowsFlushed(disk[e := b], cache, todo - {e})
  {
    hide Entry;
  }

  lemma AllRows(disk: seq<Block>, cache: Cache)
    requires RowsFlushed(disk, cache, {})
    ensures Flushed(disk, cache)
  {
    hide RowFlushed;
  }

  lemma RowFits(cache: Cache, roles: Roles, next: nat, n: nat, e: nat)
    requires CacheOk(cache, roles, next, n) && e in cache && next <= n <= MAX_NBLKS
    ensures RowOk(cache[e], 0x1_0000_0000) && |cache[e]| == NENTRY && e < n
  {
    assert RowOk(cache[e], n);
  }

  /** Super block and freemap are no inode and no index block. */
  lemma MetaApart(files: set<nat>, cache: Cache, roles: Roles, next: nat, n: nat)
    requires PlacesOk(files, cache.Keys, next, n) && CacheOk(cache, roles, next, n)
    ensures forall b: nat :: b < Base(n) && b != ROOT ==> b !in files && b !in cache
  {
  }

  lemma DataUntouched(disk: seq<Block>, disk': seq<Block>, taken: set<nat>, lists: map<nat, seq<nat>>,
                      chunks: map<nat, seq<Block>>, next: nat, n: nat)
    requires DataOk(disk, taken, lists, chunks, next, n) && |disk'| == |disk|
    requires forall b: nat :: Base(n) <= b < |disk| && b !in taken ==> disk'[b] == disk[b]
    ensures DataOk(disk', taken, lists, chunks, next, n)
  {
    forall id: nat | id in lists
      ensures ChunksOk(disk', taken, lists[id], chunks[id], next, n)
    {
      assert ChunksOk(disk, taken, lists[id], chunks[id], next, n);
      forall k: nat | k < |lists[id]|
        ensures ChunkOk(disk', taken, lists[id], chunks[id], next, n, k)
      {
        assert ChunkOk(disk, taken, lists[id], chunks[id], next, n, k);
      }
    }
  }

  lemma FlushedKept(disk: seq<Block>, disk': seq<Block>, cache: Cache, roles: Roles, files: set<nat>, next: nat, n: nat)
    requires Flushed(disk, cache) && |disk'| == |disk| && PlacesOk(files, cache.Keys, next, n)
    requires forall b: nat :: b < |disk| && b !in files ==> disk'[b] == disk[b]
    ensures Flushed(disk', cache)
  {
    hide Entry;
    forall e: nat | e in cache
      ensures RowFlushed(disk', e, cache[e])
    {
      assert RowFlushed(disk, e, cache[e]);
      assert e !in files;
    }
  }

  lemma AllReadable(disk: seq<Block>, cache: Cache, roles: Roles, files: map<nat, File>, lists: map<nat, seq<nat>>,
                    chunks: map<nat, seq<Block>>, taken: set<nat>, next: nat, n: nat)
    requires FilesOk(cache, roles, files, lists) && Flushed(disk, cache) && InodesFlushed(disk, files, {})
    requires DataOk(disk, taken, lists, chunks, next, n)
    ensures forall id: nat :: id in files ==> id in chunks && FileReadable(disk, id, files[id], chunks[id])
  {
    hide FileOk, Flushed, RowFlushed, ChunksOk, FileReadable, InodeRow;
    forall id: nat | id in files
      ensures id in chunks && FileReadable(disk, id, files[id], chunks[id])
    {
      assert id in lists;
      KernelReads(disk, cache, roles, id, files[id], lists[id], chunks[id], taken, next, n);
    }
  }

  lemma Listed(cache: Cache, roles: Roles, files: map<nat, File>, lists: map<nat, seq<nat>>, disk: seq<Block>,
               chunks: map<nat, seq<Block>>, next: nat, n: nat, id: nat)
    requires FilesOk(cache, roles, files, lists) && DataOk(disk, files.Keys + cache.Keys, lists, chunks, next, n)
             && id in files
    ensures id in chunks
  {
  }

  lemma PlacesLater(files: set<nat>, cached: set<nat>, next: nat, n: nat)
    requires PlacesOk(files, cached, next, n)
    ensures PlacesOk(files, cached, next + 1, n)
  {
  }

  /** A block that nobody had is filled. */
  lemma DataLater(disk: seq<Block>, taken: set<nat>, lists: map<nat, seq<nat>>, chunks: map<nat, seq<Block>>,
                  next: nat, n: nat, b: Block)
    requires DataOk(disk, taken, lists, chunks, next, n) && next < |disk|
    ensures DataOk(disk[next := b], taken, lists, chunks, next + 1, n)
  {
    var d, m := disk[next := b], next + 1;
    forall id: nat | id in lists
      ensures ChunksOk(d, taken, lists[id], chunks[id], m, n)
    {
      assert ChunksOk(disk, taken, lists[id], chunks[id], next, n);
      forall k: nat | k < |lists[id]|
        ensures ChunkOk(d, taken, lists[id], chunks[id], m, n, k)
      {
        assert ChunkOk(disk, taken, lists[id], chunks[id], next, n, k);
      }
    }
  }

  function Padded(bytes: seq<byte>): Block
    requires |bytes| <= BLKSIZE
  {
    bytes + seq(BLKSIZE - |bytes|, _ => 0)
  }

  /** A file cut into blocks. */
  function Chunks(content: seq<byte>): seq<Block> {
    if |content| == 0 then []
    else if |content| < BLKSIZE then [Padded(content)]
    else [Padded(content[..BLKSIZE])] + Chunks(content[BLKSIZE..])
  }

  /** The blocks that `k` more blocks of a file of `n` take, its index blocks included. */
  function Need(n: nat, k: nat): nat
    decreases k
  {
    if k == 0 then 0 else 1 + NewBlocks(n) + Need(n + 1, k - 1)
  }

  lemma NextChunk(rest: seq<byte>, n: nat)
    requires rest != [] && n == (if |rest| < BLKSIZE then |rest| else BLKSIZE)
    ensures Chunks(rest) == [Padded(rest[..n])] + Chunks(rest[n..])
  {
    assert |rest| < BLKSIZE ==> rest[..n] == rest;
  }

  lemma NoChunk()
    ensures Chunks([]) == []
  {
  }

  lemma {:induction false} ChunkByte(content: seq<byte>, p: nat)
    ensures |Chunks(content)| * 4096 < |content| + 4096 && |content| <= |Chunks(content)| * 4096
    ensures p < |Chunks(content)| * 4096 ==>
              p / BLKSIZE < |Chunks(content)|
              && Chunks(content)[p / BLKSIZE][p % BLKSIZE] == if p < |content| then content[p] else 0
    decreases |content|
  {
    if |content| >= BLKSIZE {
      ChunkByte(content[BLKSIZE..], if p >= BLKSIZE then p - BLKSIZE else 0);
    }
  }

  /** A file of the host, written to an empty inode, is what the kernel reads, byte for byte; it has no more blocks than
      it needs, and the rest of the last one is zero. */
  lemma KernelContent(disk: seq<Block>, id: nat, f: File, content: seq<byte>, p: nat)
    requires FileReadable(disk, id, f, Chunks(content)) && f.nblks <= MAXBLKS && p < 4096 * f.nblks
    ensures var d := ReadDin(disk[id]);
            && DinShape(d, |disk|) && p / BLKSIZE < MAXBLKS && |content| <= 4096 * d.blocks < |content| + 4096
            && BlockOf(disk, d, p / BLKSIZE) < |disk|
            && disk[BlockOf(disk, d, p / BLKSIZE)][p % BLKSIZE] == if p < |content| then content[p] else 0
  {
    hide Chunks, ReadDin, BlockOf;
    ChunkByte(content, p);
    assert Readable(disk, id, p / BLKSIZE, Chunks(content)[p / BLKSIZE]);
  }

  // ----- what an append leaves alone -----

  /** What is new lies behind what had been handed out. */
  ghost predicate Grown(before: set<nat>, after: set<nat>, next: nat) {
    before <= after && forall e: nat :: e in after ==> e in before || next <= e
  }

  lemma EmptyRowOk(n: nat)
    requires n > 0
    ensures RowOk(NoEntries(), n)
  {
  }

  lemma PutOk(cache: Cache, roles: Roles, next: nat, n: nat, e: nat, i: nat, b: nat)
    requires CacheOk(cache, roles, next, n) && e in cache && i < |cache[e]| && b < n
    ensures CacheOk(Put(cache, e, i, b), roles, next, n)
  {
    assert RowOk(cache[e], n);
    assert RowOk(Put(cache, e, i, b)[e], n);
  }

  lemma EntryBelow(cache: Cache, roles: Roles, next: nat, n: nat, e: nat, j: nat)
    requires CacheOk(cache, roles, next, n) && e in cache && j < |cache[e]|
    ensures cache[e][j] < n
  {
    assert RowOk(cache[e], n);
  }

  lemma InodeAt(files: map<nat, File>, id: nat, n: nat)
    requires InodesOk(files, n) && id in files
    ensures InodeOk(files[id], n)
  {
  }

  lemma NewInodeOk(files: map<nat, File>, id: nat, tag: nat, n: nat)
    requires InodesOk(files, n) && n > 0 && tag < 0x1_0000_0000
    ensures InodesOk(files[id := NewFile(tag)], n)
  {
  }

  lemma OneLonger(files: map<nat, File>, id: nat, f: File, n: nat)
    requires InodesOk(files, n) && LinksOk(f, n) && f.nblks < LN_BLKS && f.size <= (f.nblks + 1) * BLKSIZE
    ensures InodesOk(files[id := f.(nblks := f.nblks + 1)], n)
  {
  }

  lemma SizeKeeps(cache: Cache, roles: Roles, id: nat, f: File, list: seq<nat>, size: nat, n: nat)
    requires FileOk(cache, roles, id, f, list) && LinksOk(f, n)
    ensures FileOk(cache, roles, id, f.(size := size), list) && LinksOk(f.(size := size), n)
  {
    var f' := f.(size := size);
    forall k: nat | k < |list|
      ensures Entered(cache, f', list, k)
    {
      assert Entered(cache, f, list, k);
    }
  }

  lemma Fresh(files: set<nat>, cached: set<nat>, next: nat, n: nat)
    requires PlacesOk(files, cached, next, n)
    ensures next !in files
  {
  }

  lemma PlacesMore(files: set<nat>, cached: set<nat>, next: nat, n: nat)
    requires PlacesOk(files, cached, next, n) && next !in cached && Base(n) <= next
    ensures PlacesOk(files + {next}, cached, next + 1, n)
  {
  }

  lemma PlacesGrow(files: set<nat>, cached: set<nat>, cached': set<nat>, next: nat, next': nat, n: nat)
    requires PlacesOk(files, cached, next, n) && Grown(cached, cached', next) && next <= next'
    ensures PlacesOk(files, cached', next', n)
  {
  }

  lemma TakenGrow(files: set<nat>, cached: set<nat>, cached': set<nat>, next: nat)
    requires Grown(cached, cached', next)
    ensures Grown(files + cached, files + cached', next)
  {
  }

  lemma BlockApart(files: set<nat>, cached: set<nat>, cached': set<nat>, next: nat, b: nat)
    requires Grown(cached, cached', next) && b !in files && b !in cached && b < next
    ensures b !in files + cached'
  {
  }

  lemma DataMore(disk: seq<Block>, taken: set<nat>, lists: map<nat, seq<nat>>, chunks: map<nat, seq<Block>>,
                 next: nat, n: nat, taken': set<nat>, next': nat)
    requires DataOk(disk, taken, lists, chunks, next, n) && Grown(taken, taken', next) && next <= next'
    ensures DataOk(disk, taken', lists, chunks, next', n)
  {
    forall id: nat | id in lists
      ensures ChunksOk(disk, taken', lists[id], chunks[id], next', n)
    {
      assert ChunksOk(disk, taken, lists[id], chunks[id], next, n);
      forall k: nat | k < |lists[id]|
        ensures ChunkOk(disk, taken', lists[id], chunks[id], next', n, k)
      {
        assert ChunkOk(disk, taken, lists[id], chunks[id], next, n, k);
      }
    }
  }

  lemma NoChunks(disk: seq<Block>, taken: set<nat>, lists: map<nat, seq<nat>>, chunks: map<nat, seq<Block>>,
                 next: nat, n: nat, id: nat)
    requires DataOk(disk, taken, lists, chunks, next, n)
    ensures DataOk(disk, taken, lists[id := []], chunks[id := []], next, n)
  {
  }

  lemma DataAppend(disk: seq<Block>, taken: set<nat>, lists: map<nat, seq<nat>>, chunks: map<nat, seq<Block>>,
                   next: nat, n: nat, id: nat, b: nat)
    requires DataOk(disk, taken, lists, chunks, next, n) && id in lists && Base(n) <= b < next && b < |disk|
             && b !in taken
    ensures id in chunks && DataOk(disk, taken, lists[id := lists[id] + [b]], chunks[id := chunks[id] + [disk[b]]],
              next, n)
  {
    var list, mine := lists[id] + [b], chunks[id] + [disk[b]];
    assert ChunksOk(disk, taken, lists[id], chunks[id], next, n);
    forall k: nat | k < |list|
      ensures ChunkOk(disk, taken, list, mine, next, n, k)
    {
      assert k < |lists[id]| ==> ChunkOk(disk, taken, lists[id], chunks[id], next, n, k);
    }
    assert ChunksOk(disk, taken, list, mine, next, n);
  }

  lemma FileAt(cache: Cache, roles: Roles, files: map<nat, File>, lists: map<nat, seq<nat>>, id: nat)
    requires FilesOk(cache, roles, files, lists) && id in files
    ensures id in lists && FileOk(cache, roles, id, files[id], lists[id]) && |files[id].direct| == NDIRECT
  {
  }

  lemma IndexFacts(cache: Cache, roles: Roles, id: nat, f: File, list: seq<nat>)
    requires FileOk(cache, roles, id, f, list) && NDIRECT <= f.nblks < L1_BLKS
    ensures f.indirect == 0 <==> f.nblks == NDIRECT
    ensures f.nblks > NDIRECT ==> f.l1 == At(f.indirect)
  {
  }

  lemma TopFacts(cache: Cache, roles: Roles, id: nat, f: File, list: seq<nat>)
    requires FileOk(cache, roles, id, f, list) && L1_BLKS <= f.nblks
    ensures f.db == 0 <==> f.nblks == L1_BLKS
    ensures f.nblks > L1_BLKS ==> f.l2 == At(f.db)
  {
  }

  lemma GroupedFacts(cache: Cache, roles: Roles, id: nat, f: File, list: seq<nat>)
    requires Grouped(cache, roles, id, f, list)
    ensures Group(f.nblks) < NENTRY && f.db in cache && Group(f.nblks) < |cache[f.db]|
            && f.l1 == At(cache[f.db][Group(f.nblks)])
  {
    GroupsNext(f.nblks);
    assert LeafOk(cache, roles, id, f.db, f.nblks + 1, Group(f.nblks));
  }
}
