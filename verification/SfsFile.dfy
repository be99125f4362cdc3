/**
 SFS file operations: the unaligned read and write of `sfs_io_nolock` and the
 resizing of `sfs_truncfile`, as methods of a mounted file system.
 */
module SfsFile {
  import opened SfsBlocks
  import opened SfsGrow

  const MAX_FILE_SIZE: nat := 0x800_0000     // 128 MB

  datatype Status = Ok | NoMem | Inval | Panic

  /** The blocks that `n` bytes need. */
  function CeilDiv(n: nat): (b: nat)
    ensures (b - 1) * 4096 < n <= b * 4096
  {
    (n + BLKSIZE - 1) / BLKSIZE
  }

  function Min(a: int, b: int): int {
    if a < b then a else b
  }

  function Max(a: int, b: int): int {
    if a > b then a else b
  }

  /** The blocks of a file hold its bytes. */
  ghost predicate SizeOk(fs: Fs, ino: nat) {
    ino in fs.dins && fs.dins[ino].size <= fs.dins[ino].blocks * BLKSIZE
  }

  ghost function Content(fs: Fs, ino: nat): seq<byte>
    requires ino in fs.dins
  {
    seq(fs.dins[ino].size, p requires p >= 0 => Byte(fs, ino, p))
  }

  /** Free blocks it takes to bring a file to `n` blocks, its index block included. */
  function Cost(d: Din, n: int): int {
    n - d.blocks + if n > NDIRECT && d.indirect == 0 then 1 else 0
  }

  /** How `fs` differs from `fs0` once `data` has been written at `offset` of file
      `ino` and the file has been brought to `n` blocks. */
  ghost predicate Written(fs0: Fs, fs: Fs, ino: nat, offset: nat, data: seq<byte>, n: nat) {
    && Inv(fs0, {}) && Inv(fs, {}) && ino in fs0.dins && fs.dins.Keys == fs0.dins.Keys && |fs.disk| == |fs0.disk|
    && fs.dins[ino].blocks == n >= fs0.dins[ino].blocks
    && (fs.dins[ino].indirect == 0 <==> fs0.dins[ino].indirect == 0 && n <= NDIRECT)
    && fs.unused == fs0.unused - Cost(fs0.dins[ino], n)
    && (forall other: nat :: other in fs0.dins && other != ino ==> Untouched(fs0, fs, other))
    && (forall p: nat :: p < n * BLKSIZE ==>
          Byte(fs, ino, p) == if offset <= p < offset + |data| then data[p - offset] else Byte(fs0, ino, p))
  }

  lemma NothingWritten(fs: Fs, ino: nat, offset: nat)
    requires Inv(fs, {}) && ino in fs.dins
    ensures Written(fs, fs, ino, offset, [], fs.dins[ino].blocks)
  {
    assert MapOk(fs, ino);
    MapFacts(fs, ino);
  }

  lemma UntouchedTransAll(fs0: Fs, fs: Fs, r: Fs, ino: nat)
    requires Inv(fs0, {}) && fs.dins.Keys == fs0.dins.Keys
    requires forall other: nat :: other in fs0.dins && other != ino ==> Untouched(fs0, fs, other)
    requires forall other: nat :: other in fs.dins && other != ino ==> Untouched(fs, r, other)
    ensures forall other: nat :: other in fs0.dins && other != ino ==> Untouched(fs0, r, other)
  {
    hide Untouched, DinOk, BitsOk, OwnerOk;
    forall other: nat | other in fs0.dins && other != ino
      ensures Untouched(fs0, r, other)
    {
      UntouchedTrans(fs0, fs, r, other);
    }
  }

  lemma IndexPresent(fs: Fs, ino: nat)
    requires Inv(fs, {}) && ino in fs.dins
    ensures MapOk(fs, ino) && (fs.dins[ino].blocks > NDIRECT ==> fs.dins[ino].indirect != 0)
            && fs.dins[ino].blocks <= MAXBLKS
  {
    assert MapOk(fs, ino);
  }

  /** A block more: the new block reads as zeros. */
  lemma WrittenGrow(fs0: Fs, fs: Fs, r: Fs, ino: nat, offset: nat, data: seq<byte>, n: nat)
    requires Written(fs0, fs, ino, offset, data, n) && Appended(fs, r, ino)
             && (data == [] || offset + |data| <= n * BLKSIZE)
    ensures Written(fs0, r, ino, offset, data, n + 1)
  {
    hide Inv, Untouched, MapOk;
    UntouchedTransAll(fs0, fs, r, ino);
    IndexPresent(fs0, ino);
    IndexPresent(fs, ino);
    IndexPresent(r, ino);
  }

  /** The next piece of data goes into block `i`, right behind what is there. */
  lemma WrittenMore(fs0: Fs, fs: Fs, ino: nat, offset: nat, data: seq<byte>, n: nat, i: nat, off: nat, piece: seq<byte>)
    requires Written(fs0, fs, ino, offset, data, n)
    requires i < n && off + |piece| <= BLKSIZE && offset + |data| == i * BLKSIZE + off
    ensures MapOk(fs, ino) && Written(fs0, PutData(fs, ino, i, off, piece), ino, offset, data + piece, n)
  {
    hide Untouched, MapOk, DinOk, BitsOk, OwnerOk;
    IndexPresent(fs, ino);
    var r := PutData(fs, ino, i, off, piece);
    PutDataKeeps(fs, ino, i, off, piece);
    PutDataKeys(fs, ino, i, off, piece);
    UntouchedTransAll(fs0, fs, r, ino);
    forall p: nat | p < n * BLKSIZE
      ensures Byte(r, ino, p) == if offset <= p < offset + |data + piece| then (data + piece)[p - offset]
                else Byte(fs0, ino, p)
    {
      PutDataBytes(fs, ino, i, off, piece, p);
      assert Byte(fs, ino, p) == if offset <= p < offset + |data| then data[p - offset] else Byte(fs0, ino, p);
      assert r.dins[ino] == fs.dins[ino];
    }
  }

  lemma PutDataKeys(fs: Fs, ino: nat, i: nat, off: nat, data: seq<byte>)
    requires MapOk(fs, ino) && i < fs.dins[ino].blocks && off + |data| <= BLKSIZE
    ensures var r := PutData(fs, ino, i, off, data);
            r.dins == fs.dins && |r.disk| == |fs.disk| && r.unused == fs.unused
  {
    assert OwnedBy(fs, BlockOf(fs.disk, fs.dins[ino], i), Data(ino, i));
  }

  /** The size field is not part of any block. */
  lemma SetSizeKeeps(fs: Fs, ino: nat, size: nat)
    requires Inv(fs, {}) && ino in fs.dins
    ensures Inv(SetSize(fs, ino, size), {})
    ensures forall p: nat :: Byte(SetSize(fs, ino, size), ino, p) == Byte(fs, ino, p)
    ensures forall other: nat :: other in fs.dins && other != ino ==> Untouched(fs, SetSize(fs, ino, size), other)
  {
    var r := SetSize(fs, ino, size);
    assert MapOk(fs, ino);
    SetSizeMap(fs, ino, size);
    forall other: nat | other in fs.dins && other != ino
      ensures Untouched(fs, r, other) && MapOk(r, other)
    {
      UntouchedMap(fs, r, other);
    }
    SetSizeOwners(fs, ino, size);
  }

  lemma SetSizeMap(fs: Fs, ino: nat, size: nat)
    requires MapOk(fs, ino)
    ensures MapOk(SetSize(fs, ino, size), ino)
    ensures forall i: nat :: i < MAXBLKS ==>
              BlockOf(fs.disk, SetSize(fs, ino, size).dins[ino], i) == BlockOf(fs.disk, fs.dins[ino], i)
  {
    var r := SetSize(fs, ino, size);
    forall i: nat | i < MAXBLKS
      ensures BlockOf(r.disk, r.dins[ino], i) == BlockOf(fs.disk, fs.dins[ino], i)
    {
    }
    forall i: nat | i < fs.dins[ino].blocks
      ensures OwnedBy(r, BlockOf(r.disk, r.dins[ino], i), Data(ino, i))
    {
      assert OwnedBy(fs, BlockOf(fs.disk, fs.dins[ino], i), Data(ino, i));
    }
  }

  lemma SetSizeOwners(fs: Fs, ino: nat, size: nat)
    requires Inv(fs, {}) && ino in fs.dins
    ensures BitsOk(SetSize(fs, ino, size)) && forall c: nat :: c in fs.owner ==> OwnerOk(SetSize(fs, ino, size), c)
  {
    var r := SetSize(fs, ino, size);
    assert MapOk(fs, ino);
    SetSizeMap(fs, ino, size);
    forall n: nat | n in r.dins
      ensures OwnedBy(r, n, InodeBlock)
    {
      assert OwnedBy(fs, n, InodeBlock);
    }
    forall c: nat | c in fs.owner
      ensures OwnerOk(r, c)
    {
      assert OwnerOk(fs, c);
    }
  }

  /** An extension that failed half way has at most scrubbed a free block. */
  ghost predicate OnlyScrubbed(fs: Fs, r: Fs) {
    && Inv(r, {}) && r.dins == fs.dins && r.free == fs.free && r.unused == fs.unused && |r.disk| == |fs.disk|
    && forall ino: nat :: ino in fs.dins ==> Untouched(fs, r, ino)
  }

  lemma NothingScrubbed(fs: Fs)
    requires Inv(fs, {})
    ensures OnlyScrubbed(fs, fs)
  {
  }

  /** The index block allocated for an extension that then found no data block is given back. */
  lemma GiveBack(fs: Fs, ino: nat)
    requires Inv(fs, {}) && ino in fs.dins && fs.dins[ino].indirect == 0 && FirstFree(fs.free) >= 0
    ensures var e := FirstFree(fs.free); var t := TakeFirst(fs, Indirect(ino));
            e < |t.free| && e in t.owner && OnlyScrubbed(fs, Release(t, e))
  {
    hide DinOk, Untouched;
    var e, t := FirstFree(fs.free), TakeFirst(fs, Indirect(ino));
    TakeFirstKeeps(fs, {}, Indirect(ino));
    assert {} + {e} == {e} && {e} - {e} == {};
    assert !OwnerOk(t, e);
    ReleaseKeeps(t, {e}, e);
    var r := Release(t, e);
    CountSet(fs.free, e, false);
    CountSet(t.free, e, true);
    assert r.free == fs.free;
    forall n: nat | n in fs.dins
      ensures Untouched(fs, r, n)
    {
      UntouchedTrans(fs, t, r, n);
    }
  }

  /** The file system after `data` has been written at `offset`: the bytes, the size,
      the block count and the free count of the file, and every other file as before. */
  ghost predicate Updated(fs0: Fs, fs: Fs, ino: nat, offset: nat, data: seq<byte>) {
    && Inv(fs, {}) && ino in fs0.dins && fs.dins.Keys == fs0.dins.Keys
    && fs.dins[ino].size == Max(fs0.dins[ino].size, offset + |data|)
    && fs.dins[ino].blocks == (if data == [] then fs0.dins[ino].blocks
         else Max(fs0.dins[ino].blocks, CeilDiv(offset + |data|)))
    && fs.unused == fs0.unused - Cost(fs0.dins[ino], fs.dins[ino].blocks)
    && (forall other: nat :: other in fs0.dins && other != ino ==> Untouched(fs0, fs, other))
    && (forall p: nat :: p < fs.dins[ino].blocks * BLKSIZE ==>
          Byte(fs, ino, p) == if offset <= p < offset + |data| then data[p - offset] else Byte(fs0, ino, p))
  }

  /** The last statement of a write raises the size if the data reach past it. */
  ghost function Sized(fs: Fs, ino: nat, end: nat): Fs
    requires ino in fs.dins
  {
    if end > fs.dins[ino].size then SetSize(fs, ino, end) else fs
  }

  lemma UpdatedFrom(fs0: Fs, fs: Fs, ino: nat, offset: nat, data: seq<byte>)
    requires ino in fs.dins && Written(fs0, fs, ino, offset, data, fs.dins[ino].blocks) && ino in fs0.dins
    requires fs.dins[ino].size == fs0.dins[ino].size
    requires fs.dins[ino].blocks == if data == [] then fs0.dins[ino].blocks
               else Max(fs0.dins[ino].blocks, CeilDiv(offset + |data|))
    ensures Updated(fs0, Sized(fs, ino, offset + |data|), ino, offset, data)
  {
    hide Inv, Untouched, MapOk;
    if offset + |data| > fs.dins[ino].size {
      SetSizeKeeps(fs, ino, offset + |data|);
      UntouchedTransAll(fs0, fs, SetSize(fs, ino, offset + |data|), ino);
    }
  }

  /** `fs` is `fs0` with file `ino` cut to `n` blocks. */
  ghost predicate CutTo(fs0: Fs, fs: Fs, ino: nat, n: nat) {
    && Inv(fs0, {}) && Inv(fs, {}) && ino in fs0.dins && fs.dins.Keys == fs0.dins.Keys
    && fs.dins[ino].blocks == n <= fs0.dins[ino].blocks && fs.dins[ino].size == fs0.dins[ino].size
    && fs.unused == fs0.unused + fs0.dins[ino].blocks - n
    && (forall other: nat :: other in fs0.dins && other != ino ==> Untouched(fs0, fs, other))
    && (forall p: nat :: p < n * BLKSIZE ==> Byte(fs, ino, p) == Byte(fs0, ino, p))
  }

  lemma NothingCut(fs: Fs, ino: nat)
    requires Inv(fs, {}) && ino in fs.dins
    ensures CutTo(fs, fs, ino, fs.dins[ino].blocks)
  {
  }

  lemma CutMore(fs0: Fs, fs: Fs, r: Fs, ino: nat, n: nat)
    requires CutTo(fs0, fs, ino, n) && Shortened(fs, r, ino)
    ensures Inv(r, {}) && ino in r.dins && r.dins[ino].blocks == n - 1 && CutTo(fs0, r, ino, n - 1)
  {
    hide Inv, Untouched, MapOk;
    UntouchedTransAll(fs0, fs, r, ino);
  }

  lemma CutDins(fs0: Fs, fs: Fs, ino: nat, n: nat)
    requires CutTo(fs0, fs, ino, n)
    ensures Inv(fs, {}) && ino in fs.dins
  {
  }

  /** File `ino` resized to `len`: its blocks are exactly those its size needs, bytes
      kept are unchanged, added blocks read as zeros, other files are as before. */
  ghost predicate Resized(fs0: Fs, fs: Fs, ino: nat, len: nat) {
    && Inv(fs, {}) && ino in fs0.dins && fs.dins.Keys == fs0.dins.Keys
    && fs.dins[ino].size == len && fs.dins[ino].blocks == CeilDiv(len)
    && fs.unused == (if CeilDiv(len) >= fs0.dins[ino].blocks then fs0.unused - Cost(fs0.dins[ino], CeilDiv(len))
                     else fs0.unused + fs0.dins[ino].blocks - CeilDiv(len))
    && (forall other: nat :: other in fs0.dins && other != ino ==> Untouched(fs0, fs, other))
    && (forall p: nat :: p < CeilDiv(len) * BLKSIZE ==> Byte(fs, ino, p) == Byte(fs0, ino, p))
  }

  lemma ResizedSame(fs: Fs, ino: nat)
    requires Inv(fs, {}) && ino in fs.dins && fs.dins[ino].blocks == CeilDiv(fs.dins[ino].size)
    ensures Resized(fs, fs, ino, fs.dins[ino].size)
  {
    IndexPresent(fs, ino);
  }

  lemma ResizedGrown(fs0: Fs, fs: Fs, ino: nat, len: nat)
    requires Written(fs0, fs, ino, 0, [], CeilDiv(len)) && ino in fs.dins
    ensures Resized(fs0, SetSize(fs, ino, len), ino, len)
  {
    hide Inv, Untouched, MapOk;
    SetSizeKeeps(fs, ino, len);
    UntouchedTransAll(fs0, fs, SetSize(fs, ino, len), ino);
  }

  lemma ResizedCut(fs0: Fs, fs: Fs, ino: nat, len: nat)
    requires CutTo(fs0, fs, ino, CeilDiv(len)) && ino in fs.dins
    ensures Resized(fs0, SetSize(fs, ino, len), ino, len)
  {
    hide Inv, Untouched, MapOk;
    SetSizeKeeps(fs, ino, len);
    UntouchedTransAll(fs0, fs, SetSize(fs, ino, len), ino);
    IndexPresent(fs0, ino);
  }

  lemma WrittenInv(fs0: Fs, fs: Fs, ino: nat, offset: nat, data: seq<byte>, n: nat)
    requires Written(fs0, fs, ino, offset, data, n)
    ensures Inv(fs, {}) && ino in fs.dins && fs.dins[ino].blocks == n && ino in fs0.dins
    ensures fs.unused == fs0.unused - Cost(fs0.dins[ino], n)
    ensures Cost(fs0.dins[ino], n + 1) == Cost(fs0.dins[ino], n) + Need(fs.dins[ino])
    ensures n <= MAXBLKS
  {
    IndexPresent(fs0, ino);
    IndexPresent(fs, ino);
  }

  lemma ScrubKeepsDins(fs: Fs, r: Fs)
    requires OnlyScrubbed(fs, r)
    ensures r.dins == fs.dins
  {
  }

  lemma AppendedDins(fs: Fs, r: Fs, ino: nat)
    requires Appended(fs, r, ino)
    ensures ino in r.dins && r.dins[ino].blocks == fs.dins[ino].blocks + 1 && r.dins[ino].size == fs.dins[ino].size
  {
  }

  lemma LooseInUse(fs: Fs, ino: nat)
    requires Inv(fs, {}) && MapOk(fs, ino) && fs.dins[ino].blocks > 0
    ensures var b := BlockOf(fs.disk, fs.dins[ino], fs.dins[ino].blocks - 1); b < |fs.free| && !fs.free[b]
  {
    assert OwnedBy(fs, BlockOf(fs.disk, fs.dins[ino], fs.dins[ino].blocks - 1), Data(ino, fs.dins[ino].blocks - 1));
  }

  /** What becomes of bringing a file to `n` blocks: the blocks run out, or the block map does. */
  function GrowStatus(d: Din, n: int, unused: nat): (st: Status)
    ensures st != Inval
  {
    if Cost(d, Min(n, MAXBLKS)) > unused then NoMem else if n > MAXBLKS then Panic else Ok
  }

  // ----- what becomes of a request, told by its bytes -----

  /** The free blocks suffice for a file of `end` bytes; the first byte behind the direct blocks costs one more, for
      the index block. */
  predicate Afforded(d: Din, end: int, unused: nat) {
    end <= (d.blocks + unused - if end > 12 * 4096 && d.indirect == 0 then 1 else 0) * 4096
  }

  /** A request for the bytes from `offset` to `end` begins in a block of the file or in the next one, the block map
      reaches as far, and the free blocks suffice. */
  predicate Served(d: Din, offset: int, end: int, unused: nat) {
    offset < (d.blocks + 1) * 4096 && end <= 1036 * 4096 && Afforded(d, end, unused)
  }

  /** It begins behind that, or gets as far as the end of the block map and asks for more. */
  predicate OffMap(d: Din, offset: int, end: int, unused: nat) {
    offset >= (d.blocks + 1) * 4096 || (end > 1036 * 4096 && Afforded(d, 1036 * 4096, unused))
  }

  ghost predicate Outcome(st: Status, d: Din, offset: int, end: int, unused: nat) {
    (st == Ok <==> Served(d, offset, end, unused)) && (st == Panic <==> OffMap(d, offset, end, unused)) && st != Inval
  }

  lemma GrowOutcome(d: Din, offset: int, end: nat, unused: nat)
    requires d.blocks <= MAXBLKS && (d.blocks > NDIRECT ==> d.indirect != 0) && offset < (d.blocks + 1) * 4096
    ensures Outcome(GrowStatus(d, Max(d.blocks, CeilDiv(end)), unused), d, offset, end, unused)
  {
  }

  /** A sum in a 32-bit signed variable. */
  function Signed(n: int): (r: int)
    ensures -0x8000_0000 <= r < 0x8000_0000 && (n - r) % 0x1_0000_0000 == 0
  {
    if n % 0x1_0000_0000 < 0x8000_0000 then n % 0x1_0000_0000 else n % 0x1_0000_0000 - 0x1_0000_0000
  }

  /** The end of a request wraps below its start exactly when it passes 2^31. */
  lemma SignedEnd(offset: nat, len: nat)
    requires offset < 0x8000_0000 && len < 0x1_0000_0000
    ensures offset > Signed(offset + len) <==> offset + len >= 0x8000_0000
    ensures offset + len < 0x8000_0000 ==> Signed(offset + len) == offset + len
  {
  }

  /** `data` are the bytes of the file from `offset` on. */
  ghost predicate ReadsAs(fs: Fs, ino: nat, offset: nat, data: seq<byte>) {
    forall k: nat :: k < |data| ==> data[k] == Byte(fs, ino, offset + k)
  }

  lemma ReadsOn(fs: Fs, ino: nat, offset: nat, data: seq<byte>, piece: seq<byte>)
    requires ReadsAs(fs, ino, offset, data) && ReadsAs(fs, ino, offset + |data|, piece)
    ensures ReadsAs(fs, ino, offset, data + piece)
  {
    hide Byte;
    var all := data + piece;
    forall k: nat | k < |all|
      ensures all[k] == Byte(fs, ino, offset + k)
    {
      if k >= |data| {
        assert piece[k - |data|] == Byte(fs, ino, offset + |data| + (k - |data|));
      }
    }
  }

  lemma PieceReads(fs0: Fs, fs: Fs, ino: nat, n: nat, i: nat, off: nat, piece: seq<byte>)
    requires Written(fs0, fs, ino, 0, [], n) && i < n && off + |piece| <= BLKSIZE && MapOk(fs, ino)
    requires BlockOf(fs.disk, fs.dins[ino], i) < |fs.disk|
    requires piece == fs.disk[BlockOf(fs.disk, fs.dins[ino], i)][off..off + |piece|]
    ensures ReadsAs(fs0, ino, i * BLKSIZE + off, piece)
  {
    hide Inv, Untouched, DinOk, BlockOf;
    var start := i * BLKSIZE + off;
    forall k: nat | k < |piece|
      ensures piece[k] == Byte(fs0, ino, start + k)
    {
      assert (start + k) / BLKSIZE == i && (start + k) % BLKSIZE == off + k;
      assert Byte(fs, ino, start + k) == Byte(fs0, ino, start + k);
    }
  }

  lemma ReadsContent(fs: Fs, ino: nat, offset: nat, data: seq<byte>)
    requires ino in fs.dins && ReadsAs(fs, ino, offset, data) && offset + |data| <= fs.dins[ino].size
    ensures data == Content(fs, ino)[offset..offset + |data|]
  {
    hide Byte;
  }

  /** A file with the blocks its size needs can be read without a new one. */
  lemma EnoughBlocks(fs: Fs, ino: nat, end: nat)
    requires Inv(fs, {}) && SizeOk(fs, ino) && end <= fs.dins[ino].size
    ensures CeilDiv(end) <= fs.dins[ino].blocks
    ensures GrowStatus(fs.dins[ino], fs.dins[ino].blocks, fs.unused) == Ok
  {
    IndexPresent(fs, ino);
  }

  /** Where block by block growth stops decides the outcome for every target. */
  lemma GrowEnds(fs0: Fs, fs: Fs, ino: nat, offset: nat, data: seq<byte>, n: nat, target: nat)
    requires Written(fs0, fs, ino, offset, data, n) && n <= target
    ensures n == target ==> GrowStatus(fs0.dins[ino], target, fs0.unused) == Ok
    ensures n < target && n < MAXBLKS && fs.unused < Need(fs.dins[ino]) ==>
              GrowStatus(fs0.dins[ino], target, fs0.unused) == NoMem
    ensures n < target && n == MAXBLKS ==> GrowStatus(fs0.dins[ino], target, fs0.unused) == Panic
  {
    hide Inv, Untouched;
    IndexPresent(fs0, ino);
    IndexPresent(fs, ino);
  }

  class Sfs {
    var disk: seq<Block>
    var freemap: seq<bool>
    var unused: nat
    var dins: map<nat, Din>
    ghost var owner: map<nat, Owner>

    ghost function View(): Fs
      reads this
    {
      Fs(disk, freemap, unused, dins, owner)
    }

    /** A mounted image. */
    constructor (fs: Fs)
      ensures View() == fs
    {
      disk, freemap, unused, dins, owner := fs.disk, fs.free, fs.unused, fs.dins, fs.owner;
    }

    /** `sfs_block_alloc` */
    method BlockAlloc(ghost o: Owner) returns (ok: bool, b: nat)
      requires BitsOk(View())
      modifies this`disk, this`freemap, this`unused, this`owner
      ensures ok <==> FirstFree(old(freemap)) >= 0
      ensures ok ==> b == FirstFree(old(freemap)) && View() == TakeFirst(old(View()), o)
      ensures !ok ==> View() == old(View())
    {
      var i := FirstFree(freemap);
      if i < 0 {
        return false, 0;
      }
      TakeBits(View(), i, o);
      freemap := freemap[i := false];
      unused := unused - 1;
      disk := disk[i := Zeros()];
      owner := owner[i := o];
      return true, i;
    }

    /** `sfs_block_free` of a block in use */
    method BlockFree(b: nat)
      requires b < |freemap| && !freemap[b]
      modifies this`freemap, this`unused, this`owner
      ensures View() == Release(old(View()), b)
    {
      freemap := freemap[b := true];
      unused := unused + 1;
      owner := owner - {b};
    }

    /** The direct half of `sfs_bmap_get_nolock` with create. */
    method ExtendDirect(ino: nat) returns (st: Status)
      requires Inv(View(), {}) && ino in dins && dins[ino].blocks < NDIRECT
      modifies this
      ensures st == (if CanGrow(old(View()), ino) then Ok else NoMem)
      ensures if st == Ok then View() == Grow(old(View()), ino) else OnlyScrubbed(old(View()), View())
    {
      hide DinOk, OwnerOk, Untouched, BitsOk;
      IndexPresent(View(), ino);
      MapFacts(View(), ino);
      NothingScrubbed(View());
      FreeCount(View());
      var d := dins[ino];
      var ok, b := BlockAlloc(Data(ino, d.blocks));
      if !ok {
        return NoMem;
      }
      dins := dins[ino := Din(d.size, d.blocks + 1, d.direct[d.blocks := b], d.indirect)];
      return Ok;
    }

    /** `sfs_bmap_get_sub_nolock` with create and an index block in place. */
    method ExtendIndexed(ino: nat) returns (st: Status)
      requires Inv(View(), {}) && ino in dins && NDIRECT <= dins[ino].blocks < MAXBLKS && dins[ino].indirect != 0
      modifies this
      ensures st == (if CanGrow(old(View()), ino) then Ok else NoMem)
      ensures if st == Ok then View() == Grow(old(View()), ino) else OnlyScrubbed(old(View()), View())
    {
      hide DinOk, OwnerOk, Untouched, BitsOk;
      IndexPresent(View(), ino);
      MapFacts(View(), ino);
      NothingScrubbed(View());
      FreeCount(View());
      var d := dins[ino];
      var ok, b := BlockAlloc(Data(ino, d.blocks));
      if !ok {
        return NoMem;
      }
      disk := disk[d.indirect := SetEntry(disk[d.indirect], d.blocks - NDIRECT, b)];
      dins := dins[ino := Din(d.size, d.blocks + 1, d.direct, d.indirect)];
      return Ok;
    }

    /** The two allocations of `sfs_bmap_get_sub_nolock` when there is no index block
        yet: the index block is given back if no data block is left. */
    method AllocPair(ino: nat) returns (ok: bool, ent: nat, b: nat)
      requires Inv(View(), {}) && ino in dins && dins[ino].indirect == 0
      modifies this`disk, this`freemap, this`unused, this`owner
      ensures ok <==> old(unused) >= 2
      ensures if ok then View() == TakeTwo(old(View()), ino) && ent == FirstFree(old(freemap))
              && b == FirstFree(TakeIndex(old(View()), ino).free)
              else OnlyScrubbed(old(View()), View())
    {
      hide DinOk, OwnerOk, Untouched, BitsOk;
      NothingScrubbed(View());
      FreeCount(View());
      GiveBackIf(View(), ino);
      b := 0;
      ok, ent := BlockAlloc(Indirect(ino));
      if !ok {
        return;
      }
      assert View() == TakeIndex(old(View()), ino);
      ok, b := BlockAlloc(Data(ino, dins[ino].blocks));
      if !ok {
        BlockFree(ent);
      }
    }

    /** `sfs_bmap_get_sub_nolock` with create and no index block yet. */
    method ExtendWithIndex(ino: nat) returns (st: Status)
      requires Inv(View(), {}) && ino in dins && NDIRECT <= dins[ino].blocks < MAXBLKS && dins[ino].indirect == 0
      modifies this
      ensures st == (if CanGrow(old(View()), ino) then Ok else NoMem)
      ensures if st == Ok then View() == Grow(old(View()), ino) else OnlyScrubbed(old(View()), View())
    {
      hide Inv, OnlyScrubbed, OwnedBy, Untouched, SetEntry, FirstFree;
      var d := dins[ino];
      var ok, ent, b := AllocPair(ino);
      if !ok {
        return NoMem;
      }
      TakeTwoKeeps(old(View()), ino);
      disk := disk[ent := SetEntry(disk[ent], d.blocks - NDIRECT, b)];
      dins := dins[ino := Din(d.size, d.blocks, d.direct, ent)];
      dins := dins[ino := Din(d.size, d.blocks + 1, d.direct, ent)];
      return Ok;
    }

    /** `sfs_bmap_load_nolock` one past the last block. */
    method Extend(ino: nat) returns (st: Status)
      requires Inv(View(), {}) && ino in dins
      modifies this
      ensures st == (if CanGrow(old(View()), ino) then Ok else if old(dins)[ino].blocks < MAXBLKS then NoMem else Panic)
      ensures if st == Ok then View() == Grow(old(View()), ino) else OnlyScrubbed(old(View()), View())
    {
      hide DinOk, OwnerOk, Untouched, BitsOk;
      IndexPresent(View(), ino);
      NothingScrubbed(View());
      if dins[ino].blocks < NDIRECT {
        st := ExtendDirect(ino);
      } else if dins[ino].blocks == MAXBLKS {
        st := Panic;
      } else if dins[ino].indirect != 0 {
        st := ExtendIndexed(ino);
      } else {
        st := ExtendWithIndex(ino);
      }
    }

    /** `sfs_bmap_load_nolock`: the block of an existing index, or of the next one. */
    method BmapLoad(ino: nat, index: nat) returns (st: Status, b: nat)
      requires Inv(View(), {}) && ino in dins && index <= dins[ino].blocks
      modifies this
      ensures index < old(dins)[ino].blocks ==> st == Ok && View() == old(View())
      ensures index == old(dins)[ino].blocks ==>
                && st == (if CanGrow(old(View()), ino) then Ok else if index < MAXBLKS then NoMem else Panic)
                && if st == Ok then View() == Grow(old(View()), ino) else OnlyScrubbed(old(View()), View())
      ensures Inv(View(), {})
      ensures st == Ok ==> MapOk(View(), ino) && index < dins[ino].blocks && b == BlockOf(disk, dins[ino], index)
    {
      hide DinOk, OwnerOk, Untouched, BitsOk;
      st, b := Ok, 0;
      if index == dins[ino].blocks {
        ghost var before := View();
        st := Extend(ino);
        if st != Ok {
          return;
        }
        GrowAppends(before, ino);
      }
      IndexPresent(View(), ino);
      MapFacts(View(), ino);
      b := BlockOf(disk, dins[ino], index);
    }

    /** One step of a write: the block is found or added, and the piece put into it. */
    method WritePiece(ino: nat, i: nat, off: nat, piece: seq<byte>, ghost fs0: Fs, ghost offset: nat,
                      ghost data: seq<byte>)
      returns (st: Status)
      requires ino in dins && Written(fs0, View(), ino, offset, data, dins[ino].blocks)
      requires i <= dins[ino].blocks && off + |piece| <= BLKSIZE && offset + |data| == i * BLKSIZE + off
      requires data == [] || offset + |data| <= dins[ino].blocks * BLKSIZE
      modifies this
      ensures ino in dins && dins[ino].blocks == (if st == Ok then Max(old(dins)[ino].blocks, i + 1)
                else old(dins)[ino].blocks)
      ensures Written(fs0, View(), ino, offset, if st == Ok then data + piece else data, dins[ino].blocks)
      ensures dins[ino].size == old(dins)[ino].size
      ensures st != Ok ==> i == old(dins)[ino].blocks && st == (if i == MAXBLKS then Panic else NoMem)
      ensures st != Ok ==> forall t: nat :: t > i ==> GrowStatus(fs0.dins[ino], t, fs0.unused) == st
    {
      hide DinOk, OwnerOk, Untouched, BitsOk, MapOk;
      ghost var before, n := View(), dins[ino].blocks;
      IndexPresent(before, ino);
      IndexPresent(fs0, ino);
      var b;
      st, b := BmapLoad(ino, i);
      if st != Ok {
        forall t: nat | t > i
          ensures GrowStatus(fs0.dins[ino], t, fs0.unused) == st
        {
          GrowEnds(fs0, before, ino, offset, data, n, t);
        }
        WrittenScrub(fs0, before, View(), ino, offset, data, n);
        return;
      }
      if i == n {
        GrowAppends(before, ino);
        WrittenGrow(fs0, before, View(), ino, offset, data, n);
      }
      WrittenMore(fs0, View(), ino, offset, data, dins[ino].blocks, i, off, piece);
      BlockInRange(View(), ino, i);
      disk := disk[b := Overwrite(disk[b], off, piece)];
    }

    /** The second and third phase of a write: whole blocks from the block boundary
        `blkno`, then the rest. */
    method WriteBlocks(ino: nat, buf: seq<byte>, offset: nat, endpos: nat, done: nat, first: nat, ghost fs0: Fs)
      returns (st: Status, alen: nat)
      requires ino in dins && ino in fs0.dins && offset < endpos && |buf| == endpos - offset && done <= |buf|
      requires offset + done == first * BLKSIZE && first <= endpos / BLKSIZE
      requires Written(fs0, View(), ino, offset, buf[..done], dins[ino].blocks)
      requires dins[ino].blocks == Max(fs0.dins[ino].blocks, first) && dins[ino].size == fs0.dins[ino].size
      modifies this
      ensures ino in dins && done <= alen <= |buf| && dins[ino].size == fs0.dins[ino].size
      ensures dins[ino].blocks == Max(fs0.dins[ino].blocks, CeilDiv(offset + alen))
      ensures Written(fs0, View(), ino, offset, buf[..alen], dins[ino].blocks)
      ensures st == Ok <==> alen == |buf|
      ensures st == GrowStatus(fs0.dins[ino], Max(fs0.dins[ino].blocks, CeilDiv(endpos)), fs0.unused)
    {
      hide Written, Inv, GrowStatus;
      st, alen := Ok, done;
      var blkno := first;
      var nblks := endpos / BLKSIZE - blkno;
      while nblks != 0
        invariant ino in dins && done <= alen <= |buf|
        invariant Written(fs0, View(), ino, offset, buf[..alen], dins[ino].blocks)
        invariant dins[ino].size == fs0.dins[ino].size && st == Ok && 0 <= nblks
        invariant offset + alen == blkno * BLKSIZE && blkno + nblks == endpos / BLKSIZE
        invariant dins[ino].blocks == Max(fs0.dins[ino].blocks, blkno)
        decreases nblks
      {
        st := WritePiece(ino, blkno, 0, buf[alen..alen + BLKSIZE], fs0, offset, buf[..alen]);
        if st != Ok {
          return;
        }
        assert buf[..alen] + buf[alen..alen + BLKSIZE] == buf[..alen + BLKSIZE];
        alen, blkno, nblks := alen + BLKSIZE, blkno + 1, nblks - 1;
      }
      var size := endpos % BLKSIZE;
      if size != 0 {
        st := WritePiece(ino, blkno, 0, buf[alen..alen + size], fs0, offset, buf[..alen]);
        if st != Ok {
          return;
        }
        assert buf[..alen] + buf[alen..alen + size] == buf[..alen + size];
        alen := alen + size;
      }
      GrowEnds(fs0, View(), ino, offset, buf[..alen], dins[ino].blocks, dins[ino].blocks);
    }

    /** The three phases of `sfs_io_nolock` for a write: up to the first block
        boundary, whole blocks, and the rest.  On failure exactly the first `alen`
        bytes are in the file. */
    method WriteRange(ino: nat, buf: seq<byte>, offset: nat, endpos: nat) returns (st: Status, alen: nat)
      requires Inv(View(), {}) && ino in dins && offset / BLKSIZE <= dins[ino].blocks
      requires offset < endpos && |buf| == endpos - offset
      modifies this
      ensures ino in dins && alen <= |buf| && dins[ino].size == old(dins)[ino].size
      ensures dins[ino].blocks == if alen == 0 then old(dins)[ino].blocks
                else Max(old(dins)[ino].blocks, CeilDiv(offset + alen))
      ensures Written(old(View()), View(), ino, offset, buf[..alen], dins[ino].blocks)
      ensures st == Ok <==> alen == |buf|
      ensures st == GrowStatus(old(dins)[ino], Max(old(dins)[ino].blocks, CeilDiv(endpos)), old(unused))
    {
      hide Written, Inv, GrowStatus;
      ghost var fs0 := View();
      NothingWritten(fs0, ino, offset);
      st, alen := Ok, 0;
      assert buf[..0] == [];
      var blkno := offset / BLKSIZE;
      var nblks := endpos / BLKSIZE - blkno;
      var blkoff := offset % BLKSIZE;
      if blkoff != 0 {
        var size := if nblks != 0 then BLKSIZE - blkoff else endpos - offset;
        st := WritePiece(ino, blkno, blkoff, buf[..size], fs0, offset, []);
        if st != Ok {
          return;
        }
        alen := size;
        assert [] + buf[..size] == buf[..size];
        if nblks == 0 {
          GrowEnds(fs0, View(), ino, offset, buf[..alen], dins[ino].blocks, dins[ino].blocks);
          return;
        }
        blkno := blkno + 1;
      }
      st, alen := WriteBlocks(ino, buf, offset, endpos, alen, blkno, fs0);
    }

    /** `sfs_io_nolock` for a write.  The block map asserts `offset / BLKSIZE <= blocks`, which
        every offset up to the size meets. */
    method Write(ino: nat, buf: seq<byte>, offset: int) returns (st: Status, alen: nat)
      requires Inv(View(), {}) && ino in dins && |buf| < 0x1_0000_0000
      modifies this
      ensures st == Inval <==> offset < 0 || offset >= 0x800_0000 || offset + |buf| >= 0x8000_0000
      ensures st != Inval && buf == [] ==> st == Ok
      ensures st != Inval && buf != [] ==>
                Outcome(st, old(dins)[ino], offset, Min(offset + |buf|, 0x800_0000), old(unused))
      ensures st == Ok && offset + |buf| <= 0x800_0000 ==> alen == |buf|
      ensures st == Ok && offset + |buf| > 0x800_0000 ==> offset + alen == 0x800_0000
      ensures st == NoMem ==> alen < |buf| && offset + alen < 0x800_0000
      ensures st == Inval || buf == [] ==> alen == 0 && View() == old(View())
      ensures alen <= |buf|
      ensures (st == Ok || st == NoMem) && buf != [] ==> Updated(old(View()), View(), ino, offset, buf[..alen])
    {
      hide Inv, Written, Updated, GrowStatus, Signed, Afforded;
      alen := 0;
      var endpos := Signed(offset + |buf|);
      if 0 <= offset < MAX_FILE_SIZE {
        SignedEnd(offset, |buf|);
      }
      if offset < 0 || offset >= MAX_FILE_SIZE || offset > endpos {
        return Inval, 0;
      }
      if offset == endpos {
        return Ok, 0;
      }
      ghost var fs0 := View();
      IndexPresent(fs0, ino);
      if offset / BLKSIZE > dins[ino].blocks {
        return Panic, 0;               // the assertion of the block map
      }
      if endpos > MAX_FILE_SIZE {
        endpos := MAX_FILE_SIZE;
      }
      GrowOutcome(dins[ino], offset, endpos, unused);
      st, alen := WriteRange(ino, buf[..endpos - offset], offset, endpos);
      assert buf[..endpos - offset][..alen] == buf[..alen];
      UpdatedFrom(fs0, View(), ino, offset, buf[..alen]);
      if st != Panic && offset + alen > dins[ino].size {
        var d := dins[ino];
        dins := dins[ino := Din(offset + alen, d.blocks, d.direct, d.indirect)];
      }
    }

    /** One step of a read: the block is found, or added if it is the next one. */
    method ReadPiece(ino: nat, i: nat, off: nat, len: nat, ghost fs0: Fs) returns (st: Status, piece: seq<byte>)
      requires ino in dins && Written(fs0, View(), ino, 0, [], dins[ino].blocks)
      requires i <= dins[ino].blocks && off + len <= BLKSIZE
      modifies this
      ensures ino in dins && dins[ino].size == old(dins)[ino].size
      ensures dins[ino].blocks == if st == Ok then Max(old(dins)[ino].blocks, i + 1) else old(dins)[ino].blocks
      ensures Written(fs0, View(), ino, 0, [], dins[ino].blocks)
      ensures i < old(dins)[ino].blocks ==> st == Ok && View() == old(View())
      ensures st == Ok ==> |piece| == len && ReadsAs(fs0, ino, i * BLKSIZE + off, piece)
      ensures st != Ok ==> piece == [] && forall t: nat :: t > i ==> GrowStatus(fs0.dins[ino], t, fs0.unused) == st
    {
      hide DinOk, OwnerOk, Untouched, BitsOk, MapOk;
      ghost var before, n := View(), dins[ino].blocks;
      IndexPresent(before, ino);
      IndexPresent(fs0, ino);
      var b;
      st, b := BmapLoad(ino, i);
      piece := [];
      if st != Ok {
        forall t: nat | t > i
          ensures GrowStatus(fs0.dins[ino], t, fs0.unused) == st
        {
          GrowEnds(fs0, before, ino, 0, [], n, t);
        }
        WrittenScrub(fs0, before, View(), ino, 0, [], n);
        return;
      }
      if i == n {
        GrowAppends(before, ino);
        WrittenGrow(fs0, before, View(), ino, 0, [], n);
      }
      BlockInRange(View(), ino, i);
      piece := disk[b][off..off + len];
      PieceReads(fs0, View(), ino, dins[ino].blocks, i, off, piece);
    }

    /** The second and third phase of a read. */
    method ReadBlocks(ino: nat, offset: nat, endpos: nat, head: seq<byte>, first: nat, ghost fs0: Fs)
      returns (st: Status, data: seq<byte>)
      requires ino in dins && ino in fs0.dins && offset < endpos && |head| <= endpos - offset
      requires offset + |head| == first * BLKSIZE && first <= endpos / BLKSIZE && ReadsAs(fs0, ino, offset, head)
      requires Written(fs0, View(), ino, 0, [], dins[ino].blocks)
      requires dins[ino].blocks == Max(fs0.dins[ino].blocks, first) && dins[ino].size == fs0.dins[ino].size
      requires CeilDiv(endpos) <= fs0.dins[ino].blocks ==> View() == fs0
      modifies this
      ensures ino in dins && |data| <= endpos - offset && dins[ino].size == fs0.dins[ino].size
      ensures Written(fs0, View(), ino, 0, [], dins[ino].blocks)
      ensures ReadsAs(fs0, ino, offset, data) && (st == Ok <==> |data| == endpos - offset)
      ensures st == GrowStatus(fs0.dins[ino], Max(fs0.dins[ino].blocks, CeilDiv(endpos)), fs0.unused)
      ensures CeilDiv(endpos) <= fs0.dins[ino].blocks ==> View() == fs0
    {
      hide Written, Inv, GrowStatus, ReadsAs;
      st, data := Ok, head;
      var piece: seq<byte> := [];
      var blkno := first;
      var nblks := endpos / BLKSIZE - blkno;
      while nblks != 0
        invariant ino in dins && |data| <= endpos - offset && ReadsAs(fs0, ino, offset, data)
        invariant Written(fs0, View(), ino, 0, [], dins[ino].blocks)
        invariant dins[ino].size == fs0.dins[ino].size && st == Ok && 0 <= nblks
        invariant offset + |data| == blkno * BLKSIZE && blkno + nblks == endpos / BLKSIZE
        invariant dins[ino].blocks == Max(fs0.dins[ino].blocks, blkno)
        invariant CeilDiv(endpos) <= fs0.dins[ino].blocks ==> View() == fs0
        decreases nblks
      {
        st, piece := ReadPiece(ino, blkno, 0, BLKSIZE, fs0);
        if st != Ok {
          return;
        }
        ReadsOn(fs0, ino, offset, data, piece);
        data, blkno, nblks := data + piece, blkno + 1, nblks - 1;
      }
      if endpos % BLKSIZE != 0 {
        st, piece := ReadPiece(ino, blkno, 0, endpos % BLKSIZE, fs0);
        if st != Ok {
          return;
        }
        ReadsOn(fs0, ino, offset, data, piece);
        data := data + piece;
      }
      GrowEnds(fs0, View(), ino, 0, [], dins[ino].blocks, dins[ino].blocks);
    }

    /** The three phases of `sfs_io_nolock` for a read. */
    method ReadRange(ino: nat, offset: nat, endpos: nat) returns (st: Status, data: seq<byte>)
      requires Inv(View(), {}) && ino in dins && offset < endpos && offset / BLKSIZE <= dins[ino].blocks
      modifies this
      ensures ino in dins && |data| <= endpos - offset && dins[ino].size == old(dins)[ino].size
      ensures Written(old(View()), View(), ino, 0, [], dins[ino].blocks)
      ensures ReadsAs(old(View()), ino, offset, data) && (st == Ok <==> |data| == endpos - offset)
      ensures st == GrowStatus(old(dins)[ino], Max(old(dins)[ino].blocks, CeilDiv(endpos)), old(unused))
      ensures CeilDiv(endpos) <= old(dins)[ino].blocks ==> View() == old(View())
    {
      hide Written, Inv, GrowStatus;
      ghost var fs0 := View();
      NothingWritten(fs0, ino, 0);
      st, data := Ok, [];
      var blkno := offset / BLKSIZE;
      var nblks := endpos / BLKSIZE - blkno;
      var blkoff := offset % BLKSIZE;
      if blkoff != 0 {
        var size := if nblks != 0 then BLKSIZE - blkoff else endpos - offset;
        st, data := ReadPiece(ino, blkno, blkoff, size, fs0);
        if st != Ok {
          return;
        }
        if nblks == 0 {
          GrowEnds(fs0, View(), ino, 0, [], dins[ino].blocks, dins[ino].blocks);
          return;
        }
        blkno := blkno + 1;
      }
      st, data := ReadBlocks(ino, offset, endpos, data, blkno, fs0);
    }

    /** `sfs_io_nolock` for a read: exactly the requested bytes below the size.  Where the size reaches past the
        blocks the block map adds the missing one, so that a read can allocate, run out of blocks or trip an
        assertion; it changes nothing in a file that has the blocks its size needs. */
    method Read(ino: nat, len: nat, offset: int) returns (st: Status, data: seq<byte>)
      requires Inv(View(), {}) && ino in dins && len < 0x1_0000_0000
      modifies this
      ensures st == Inval <==> offset < 0 || offset >= 0x800_0000 || offset + len >= 0x8000_0000
      ensures st != Inval && (len == 0 || offset >= old(dins)[ino].size) ==> st == Ok && data == []
      ensures st != Inval && len > 0 && offset < old(dins)[ino].size ==>
                Outcome(st, old(dins)[ino], offset, Min(offset + len, Min(old(dins)[ino].size, 0x800_0000)),
                        old(unused))
      ensures st == Ok && offset <= old(dins)[ino].size ==>
                |data| == Min(len, Min(old(dins)[ino].size - offset, 0x800_0000 - offset))
      ensures st == NoMem ==> |data| < Min(len, Min(old(dins)[ino].size - offset, 0x800_0000 - offset))
      ensures (st == Ok && offset <= old(dins)[ino].size) || st == NoMem ==>
                data == Content(old(View()), ino)[offset..offset + |data|]
      ensures st != Inval ==> ino in dins && dins[ino].size == old(dins)[ino].size
                              && Written(old(View()), View(), ino, 0, [], dins[ino].blocks)
      ensures st == Inval ==> data == [] && View() == old(View())
      ensures old(SizeOk(View(), ino)) ==> (st == Inval || st == Ok) && View() == old(View())
    {
      hide Inv, Written, GrowStatus, Signed, Afforded;
      ghost var fs0 := View();
      NothingWritten(fs0, ino, 0);
      IndexPresent(fs0, ino);
      data := [];
      var endpos := Signed(offset + len);
      if 0 <= offset < MAX_FILE_SIZE {
        SignedEnd(offset, len);
      }
      if offset < 0 || offset >= MAX_FILE_SIZE || offset > endpos {
        return Inval, data;
      }
      if offset == endpos {
        return Ok, data;
      }
      if endpos > MAX_FILE_SIZE {
        endpos := MAX_FILE_SIZE;
      }
      if offset >= dins[ino].size {
        return Ok, data;
      }
      if endpos > dins[ino].size {
        endpos := dins[ino].size;
      }
      if offset / BLKSIZE > dins[ino].blocks {
        return Panic, data;            // the assertion of the block map
      }
      if SizeOk(fs0, ino) {
        EnoughBlocks(fs0, ino, endpos);
      }
      GrowOutcome(dins[ino], offset, endpos, unused);
      st, data := ReadRange(ino, offset, endpos);
      ReadsContent(fs0, ino, offset, data);
    }

    /** The growing loop of `sfs_truncfile`. */
    method GrowTo(ino: nat, tblks: nat) returns (st: Status)
      requires Inv(View(), {}) && ino in dins && dins[ino].blocks <= tblks
      modifies this
      ensures ino in dins && dins[ino].size == old(dins)[ino].size && dins[ino].blocks <= tblks
      ensures Written(old(View()), View(), ino, 0, [], dins[ino].blocks)
      ensures st == GrowStatus(old(dins)[ino], tblks, old(unused))
      ensures st == Ok <==> dins[ino].blocks == tblks
      ensures st == NoMem ==> dins[ino].blocks < MAXBLKS && Cost(old(dins)[ino], dins[ino].blocks + 1) > old(unused)
      ensures st == Panic ==> dins[ino].blocks == MAXBLKS
      ensures st != Inval
    {
      hide Inv, Written, Appended, OnlyScrubbed;
      ghost var fs0 := View();
      NothingWritten(fs0, ino, 0);
      st := Ok;
      var nblks := dins[ino].blocks;
      while nblks != tblks
        invariant ino in dins && nblks == dins[ino].blocks <= tblks && st == Ok
        invariant dins[ino].size == fs0.dins[ino].size && Written(fs0, View(), ino, 0, [], nblks)
        decreases tblks - nblks
      {
        ghost var before := View();
        WrittenInv(fs0, before, ino, 0, [], nblks);
        st := Extend(ino);
        if st != Ok {
          GrowEnds(fs0, before, ino, 0, [], nblks, tblks);
          WrittenScrub(fs0, before, View(), ino, 0, [], nblks);
          ScrubKeepsDins(before, View());
          return;
        }
        GrowAppends(before, ino);
        AppendedDins(before, View(), ino);
        WrittenGrow(fs0, before, View(), ino, 0, [], nblks);
        nblks := nblks + 1;
      }
      GrowEnds(fs0, View(), ino, 0, [], nblks, tblks);
    }

    /** `sfs_bmap_truncate_nolock` */
    method DropLast(ino: nat)
      requires Inv(View(), {}) && ino in dins && dins[ino].blocks > 0
      modifies this
      ensures Shortened(old(View()), View(), ino)
    {
      hide DinOk, OwnerOk, Untouched, BitsOk, Shortened;
      ShrinkShortens(View(), ino);
      IndexPresent(View(), ino);
      MapFacts(View(), ino);
      FreeCount(View());
      var d := dins[ino];
      var i := d.blocks - 1;
      BlockInRange(View(), ino, i);
      UnlinkLoose(View(), ino);
      LooseInUse(View(), ino);
      var b := BlockOf(disk, d, i);
      if i < NDIRECT {
        dins := dins[ino := Din(d.size, i, d.direct[i := 0], d.indirect)];
      } else {
        disk := disk[d.indirect := SetEntry(disk[d.indirect], i - NDIRECT, 0)];
        dins := dins[ino := Din(d.size, i, d.direct, d.indirect)];
      }
      assert View() == Unlink(old(View()), ino);
      BlockFree(b);
    }

    /** The shrinking loop of `sfs_truncfile`. */
    method ShrinkTo(ino: nat, tblks: nat)
      requires Inv(View(), {}) && ino in dins && tblks <= dins[ino].blocks
      modifies this
      ensures CutTo(old(View()), View(), ino, tblks)
    {
      hide Inv, Shortened, CutTo;
      ghost var fs0 := View();
      NothingCut(fs0, ino);
      var nblks := dins[ino].blocks;
      while nblks != tblks
        invariant Inv(View(), {}) && ino in dins && tblks <= nblks == dins[ino].blocks
        invariant CutTo(fs0, View(), ino, nblks)
        decreases nblks
      {
        ghost var before := View();
        DropLast(ino);
        CutMore(fs0, before, View(), ino, nblks);
        nblks := nblks - 1;
      }
    }

    /** `sfs_truncfile`.  A growth that runs out of blocks keeps the blocks it got and
        the old size. */
    method Truncate(ino: nat, len: int) returns (st: Status)
      requires Inv(View(), {}) && ino in dins
      modifies this
      ensures st == Inval <==> len < 0 || len > 0x800_0000
      ensures st != Inval && len == old(dins)[ino].size ==>
                st == if (old(dins)[ino].blocks - 1) * 4096 < len <= old(dins)[ino].blocks * 4096 then Ok else Panic
      ensures st != Inval && len != old(dins)[ino].size && len <= old(dins)[ino].blocks * 4096 ==> st == Ok
      ensures st != Inval && len != old(dins)[ino].size && len > old(dins)[ino].blocks * 4096 ==>
                Outcome(st, old(dins)[ino], 0, len, old(unused))
      ensures st == Inval || (st != Panic && len == old(dins)[ino].size) ==> View() == old(View())
      ensures st == Ok ==> Resized(old(View()), View(), ino, len)
      ensures st == NoMem ==>
                && ino in dins && dins[ino].size == old(dins)[ino].size && dins[ino].blocks < CeilDiv(len)
                && dins[ino].blocks < MAXBLKS
                && Written(old(View()), View(), ino, 0, [], dins[ino].blocks)
                && Cost(old(dins)[ino], dins[ino].blocks + 1) > old(unused)
    {
      hide Inv, Written, CutTo, Resized, Outcome;
      if len < 0 || len > MAX_FILE_SIZE {
        return Inval;
      }
      ghost var fs0 := View();
      IndexPresent(fs0, ino);
      GrowOutcome(dins[ino], 0, len, unused);
      var tblks := CeilDiv(len);
      if dins[ino].size == len {
        if tblks != dins[ino].blocks {
          return Panic;                // assert(tblks == din->blocks)
        }
        ResizedSame(fs0, ino);
        return Ok;
      }
      st := Ok;
      if dins[ino].blocks < tblks {
        st := GrowTo(ino, tblks);
        if st != Ok {
          WrittenInv(fs0, View(), ino, 0, [], dins[ino].blocks);
          return;
        }
        ResizedGrown(fs0, View(), ino, len);
      } else {
        ShrinkTo(ino, tblks);
        CutDins(fs0, View(), ino, tblks);
        ResizedCut(fs0, View(), ino, len);
      }
      var d := dins[ino];
      dins := dins[ino := Din(len, d.blocks, d.direct, d.indirect)];
    }
  }

  lemma GiveBackIf(fs: Fs, ino: nat)
    requires Inv(fs, {}) && ino in fs.dins && fs.dins[ino].indirect == 0
    ensures FirstFree(fs.free) >= 0 ==>
              var e := FirstFree(fs.free); var t := TakeFirst(fs, Indirect(ino));
              e < |t.free| && !t.free[e] && OnlyScrubbed(fs, Release(t, e)) && BitsOk(t) && e < |t.disk|
  {
    if FirstFree(fs.free) >= 0 {
      GiveBack(fs, ino);
      TakeFirstKeeps(fs, {}, Indirect(ino));
    }
  }

  /** Scrubbing a free block shows in no file. */
  lemma WrittenScrub(fs0: Fs, fs: Fs, r: Fs, ino: nat, offset: nat, data: seq<byte>, n: nat)
    requires Written(fs0, fs, ino, offset, data, n) && OnlyScrubbed(fs, r)
    ensures Written(fs0, r, ino, offset, data, n)
  {
    hide DinOk, OwnerOk, Untouched, BitsOk, MapOk;
    UntouchedTransAll(fs0, fs, r, ino);
    IndexPresent(fs, ino);
    IndexPresent(r, ino);
    forall p: nat | p < n * BLKSIZE
      ensures Byte(r, ino, p) == Byte(fs, ino, p)
    {
      UntouchedBytes(fs, r, ino, p);
    }
  }

  lemma BlockInRange(fs: Fs, ino: nat, i: nat)
    requires MapOk(fs, ino) && i < fs.dins[ino].blocks
    ensures DinShape(fs.dins[ino], |fs.disk|) && 0 < BlockOf(fs.disk, fs.dins[ino], i) < |fs.disk|
  {
    assert OwnedBy(fs, BlockOf(fs.disk, fs.dins[ino], i), Data(ino, i));
  }

  /** A write changes exactly the bytes it reports, and appends what reaches past the end. */
  lemma ContentAfterWrite(fs0: Fs, fs: Fs, ino: nat, offset: nat, data: seq<byte>)
    requires Inv(fs0, {}) && SizeOk(fs0, ino) && offset <= fs0.dins[ino].size && Updated(fs0, fs, ino, offset, data)
    ensures SizeOk(fs, ino)
    ensures Content(fs, ino) ==
            Content(fs0, ino)[..offset] + data +
            (if offset + |data| < fs0.dins[ino].size then Content(fs0, ino)[offset + |data|..] else [])
    ensures forall other: nat :: other in fs0.dins && other != ino ==>
              other in fs.dins && Content(fs, other) == Content(fs0, other)
  {
    hide Inv, Untouched, MapOk;
    var end := offset + |data|;
    assert end <= CeilDiv(end) * BLKSIZE;
    assert Content(fs, ino) == Content(fs0, ino)[..offset] + data
             + (if end < fs0.dins[ino].size then Content(fs0, ino)[end..] else []);
    forall other: nat | other in fs0.dins && other != ino
      ensures other in fs.dins && Content(fs, other) == Content(fs0, other)
    {
      assert Untouched(fs0, fs, other);
      IndexPresent(fs0, other);
      UntouchedContent(fs0, fs, other);
    }
  }

  lemma UntouchedContent(fs0: Fs, fs: Fs, ino: nat)
    requires Untouched(fs0, fs, ino)
    ensures MapOk(fs0, ino) ==> Content(fs, ino) == Content(fs0, ino)
  {
    if MapOk(fs0, ino) {
      UntouchedMap(fs0, fs, ino);
      forall p: nat
        ensures Byte(fs, ino, p) == Byte(fs0, ino, p)
      {
        if p < fs0.dins[ino].blocks * BLKSIZE {
          UntouchedBytes(fs0, fs, ino, p);
        }
      }
    }
  }
}
