/**
 The block layer of SFS: free bits, block ownership, and the direct and indirect
 block map of an inode, over an abstract disk of 4096-byte blocks.

 `owner` records what every used block is used for.
 */
module SfsBlocks {
  const BLKSIZE: nat := 4096
  const NDIRECT: nat := 12
  const NENTRY: nat := 1024
  const MAXBLKS: nat := 1036          // NDIRECT + NENTRY

  newtype byte = x: int | 0 <= x < 256
  type Block = b: seq<byte> | |b| == 4096 witness seq(4096, _ => 0)

  function Zeros(): (z: Block)
    ensures forall i :: 0 <= i < 4096 ==> z[i] == 0
  {
    seq(4096, _ => 0)
  }

  // ----- 32-bit entries of an index block -----

  function Entry(b: Block, k: nat): (v: nat)
    requires k < NENTRY
  {
    b[4 * k] as nat + 256 * (b[4 * k + 1] as nat) + 0x1_0000 * (b[4 * k + 2] as nat)
          + 0x100_0000 * (b[4 * k + 3] as nat)
  }

  function SetEntry(b: Block, k: nat, v: nat): (r: Block)
    requires k < NENTRY && v < 0x1_0000_0000
  {
    b[4 * k := (v % 256) as byte][4 * k + 1 := (v / 256 % 256) as byte]
     [4 * k + 2 := (v / 0x1_0000 % 256) as byte][4 * k + 3 := (v / 0x100_0000) as byte]
  }

  /** An index block is an array of independent 32-bit cells. */
  lemma EntryRoundTrip(b: Block, k: nat, v: nat, j: nat)
    requires k < NENTRY && j < NENTRY && v < 0x1_0000_0000
    ensures Entry(SetEntry(b, k, v), j) == if j == k then v else Entry(b, j)
  {
    var r := SetEntry(b, k, v);
    if j == k {
      FourBytes(v);
      assert r[4 * k] == (v % 256) as byte && r[4 * k + 1] == (v / 256 % 256) as byte;
      assert r[4 * k + 2] == (v / 0x1_0000 % 256) as byte && r[4 * k + 3] == (v / 0x100_0000) as byte;
    } else {
      forall i: nat | 4 * j <= i < 4 * j + 4
        ensures r[i] == b[i]
      {
        assert i < 4 * k || i >= 4 * k + 4;
      }
    }
  }

  lemma FourBytes(v: nat)
    requires v < 0x1_0000_0000
    ensures v == v % 256 + 256 * (v / 256 % 256) + 0x1_0000 * (v / 0x1_0000 % 256) + 0x100_0000 * (v / 0x100_0000)
  {
  }

  lemma ZeroEntries(k: nat)
    requires k < NENTRY
    ensures Entry(Zeros(), k) == 0
  {
  }

  // ----- state -----

  datatype Din = Din(size: nat, blocks: nat, direct: seq<nat>, indirect: nat)

  datatype Owner = Reserved | InodeBlock | Indirect(ino: nat) | Data(ino: nat, i: nat)

  datatype Fs = Fs(
    disk: seq<Block>,
    free: seq<bool>,             // the freemap; true means free
    unused: nat,                 // super.unused_blocks
    dins: map<nat, Din>,         // inodes by the block they live in
    owner: map<nat, Owner>)

  function CountFree(free: seq<bool>): nat {
    if free == [] then 0 else CountFree(free[..|free| - 1]) + if free[|free| - 1] then 1 else 0
  }

  lemma {:induction false} CountSet(free: seq<bool>, b: nat, v: bool)
    requires b < |free|
    ensures CountFree(free[b := v]) == CountFree(free) + (if v then 1 else 0) - (if free[b] then 1 else 0)
  {
    var n := |free| - 1;
    if b < n {
      CountSet(free[..n], b, v);
      assert free[b := v][..n] == free[..n][b := v];
    } else {
      assert free[b := v][..n] == free[..n];
    }
  }

  lemma {:induction false} CountPositive(free: seq<bool>)
    ensures CountFree(free) > 0 <==> exists b :: 0 <= b < |free| && free[b]
  {
    if free != [] {
      var n := |free| - 1;
      CountPositive(free[..n]);
      if b :| 0 <= b < |free| && free[b] {
        assert b < n ==> free[..n][b];
      }
    }
  }

  // ----- the block map -----

  predicate DinShape(d: Din, nblocks: nat) {
    |d.direct| == NDIRECT && d.blocks <= MAXBLKS && d.indirect < nblocks
  }

  /** Block number of the `i`-th block, or 0 (`sfs_bmap_get_nolock` without create). */
  function BlockOf(disk: seq<Block>, d: Din, i: nat): (b: nat)
    requires DinShape(d, |disk|) && i < MAXBLKS
  {
    if i < NDIRECT then d.direct[i]
    else if d.indirect == 0 then 0
    else Entry(disk[d.indirect], i - NDIRECT)
  }

  ghost predicate OwnedBy(fs: Fs, b: nat, o: Owner) {
    0 < b < |fs.disk| && b in fs.owner && fs.owner[b] == o
  }

  /** Map entries are non-zero exactly below `blocks`, and each block they name is
      used for that entry alone. */
  ghost predicate DinOk(fs: Fs, ino: nat, d: Din) {
    && DinShape(d, |fs.disk|)
    && (d.indirect != 0 ==> OwnedBy(fs, d.indirect, Indirect(ino)))
    && (d.blocks > NDIRECT ==> d.indirect != 0)
    && (forall i: nat :: i < d.blocks ==> OwnedBy(fs, BlockOf(fs.disk, d, i), Data(ino, i)))
    && (forall i: nat :: d.blocks <= i < MAXBLKS ==> BlockOf(fs.disk, d, i) == 0)
  }

  ghost predicate MapOk(fs: Fs, ino: nat) {
    ino in fs.dins && DinOk(fs, ino, fs.dins[ino])
  }

  lemma MapFacts(fs: Fs, ino: nat)
    requires MapOk(fs, ino)
    ensures DinShape(fs.dins[ino], |fs.disk|) && (fs.dins[ino].blocks > NDIRECT ==> fs.dins[ino].indirect != 0)
  {
  }

  /** What a used block is used for is really so; blocks in `loose` are allocated
      but not yet linked. */
  ghost predicate OwnerOk(fs: Fs, b: nat) {
    && b < |fs.disk| && b in fs.owner
    && match fs.owner[b]
       case Reserved => true
       case InodeBlock => b in fs.dins
       case Indirect(ino) => ino in fs.dins && fs.dins[ino].indirect == b
       case Data(ino, i) =>
         && ino in fs.dins && i < fs.dins[ino].blocks && DinShape(fs.dins[ino], |fs.disk|)
         && BlockOf(fs.disk, fs.dins[ino], i) == b
  }

  ghost predicate BitsOk(fs: Fs) {
    && |fs.free| == |fs.disk| <= 0x8000_0000 && fs.unused == CountFree(fs.free)
    && (forall b: nat :: b in fs.owner <==> b < |fs.disk| && !fs.free[b])
    && 0 in fs.owner && fs.owner[0] == Reserved
    && (forall ino: nat :: ino in fs.dins ==> OwnedBy(fs, ino, InodeBlock))
  }

  ghost predicate Inv(fs: Fs, loose: set<nat>) {
    && BitsOk(fs)
    && (forall b: nat :: b in fs.owner && b !in loose ==> OwnerOk(fs, b))
    && (forall ino: nat :: ino in fs.dins ==> MapOk(fs, ino))
  }

  // ----- contents -----

  /** Byte `p` of the blocks of a file, whether or not it lies below the size. */
  ghost function RawAt(fs: Fs, ino: nat, p: nat): byte
    requires MapOk(fs, ino) && p < fs.dins[ino].blocks * BLKSIZE
  {
    assert OwnedBy(fs, BlockOf(fs.disk, fs.dins[ino], p / BLKSIZE), Data(ino, p / BLKSIZE));
    fs.disk[BlockOf(fs.disk, fs.dins[ino], p / BLKSIZE)][p % BLKSIZE]
  }

  predicate Of(o: Owner, ino: nat) {
    (o.Indirect? || o.Data?) && o.ino == ino
  }

  /** Neither the inode nor any block its map names has changed. */
  ghost predicate Untouched(fs: Fs, fs': Fs, ino: nat) {
    && |fs'.disk| == |fs.disk| && ino in fs.dins && ino in fs'.dins && fs'.dins[ino] == fs.dins[ino]
    && forall b: nat :: OwnerOk(fs, b) && Of(fs.owner[b], ino) ==>
         b in fs'.owner && fs'.owner[b] == fs.owner[b] && fs'.disk[b] == fs.disk[b]
  }

  lemma UntouchedMap(fs: Fs, fs': Fs, ino: nat)
    requires MapOk(fs, ino) && Untouched(fs, fs', ino)
    ensures forall i: nat :: i < MAXBLKS ==> BlockOf(fs'.disk, fs.dins[ino], i) == BlockOf(fs.disk, fs.dins[ino], i)
    ensures MapOk(fs', ino)
  {
    var d := fs.dins[ino];
    assert d.indirect != 0 ==> OwnerOk(fs, d.indirect);
    forall i: nat | i < d.blocks
      ensures OwnedBy(fs', BlockOf(fs'.disk, d, i), Data(ino, i))
    {
      assert OwnedBy(fs, BlockOf(fs.disk, d, i), Data(ino, i));
      assert OwnerOk(fs, BlockOf(fs.disk, d, i));
    }
  }

  lemma UntouchedBytes(fs: Fs, fs': Fs, ino: nat, p: nat)
    requires MapOk(fs, ino) && Untouched(fs, fs', ino) && p < fs.dins[ino].blocks * BLKSIZE
    ensures MapOk(fs', ino) && RawAt(fs', ino, p) == RawAt(fs, ino, p)
  {
    UntouchedMap(fs, fs', ino);
    assert OwnedBy(fs, BlockOf(fs.disk, fs.dins[ino], p / BLKSIZE), Data(ino, p / BLKSIZE));
    assert OwnerOk(fs, BlockOf(fs.disk, fs.dins[ino], p / BLKSIZE));
  }

  // ----- allocation and release of single blocks -----

  /** `sfs_block_alloc`: the bit is taken, the count lowered, the block cleared. */
  ghost function Take(fs: Fs, b: nat, o: Owner): Fs
    requires b < |fs.disk| && b < |fs.free| && fs.unused > 0
  {
    Fs(fs.disk[b := Zeros()], fs.free[b := false], fs.unused - 1, fs.dins, fs.owner[b := o])
  }

  /** `sfs_block_free` */
  ghost function Release(fs: Fs, b: nat): Fs
    requires b < |fs.free|
  {
    Fs(fs.disk, fs.free[b := true], fs.unused + 1, fs.dins, fs.owner - {b})
  }

  lemma TakeBits(fs: Fs, b: nat, o: Owner)
    requires BitsOk(fs) && b < |fs.disk| && fs.free[b]
    ensures fs.unused > 0 && b > 0 && b !in fs.owner && b !in fs.dins && BitsOk(Take(fs, b, o))
  {
    CountPositive(fs.free);
    CountSet(fs.free, b, false);
    var r := Take(fs, b, o);
    forall ino: nat | ino in r.dins
      ensures OwnedBy(r, ino, InodeBlock)
    {
      assert OwnedBy(fs, ino, InodeBlock);
    }
    assert b in fs.dins ==> OwnedBy(fs, b, InodeBlock);
  }

  lemma ReleaseBits(fs: Fs, b: nat)
    requires BitsOk(fs) && b < |fs.disk| && b in fs.owner && b > 0 && fs.owner[b] != InodeBlock
    ensures BitsOk(Release(fs, b))
  {
    CountSet(fs.free, b, true);
    var r := Release(fs, b);
    forall ino: nat | ino in r.dins
      ensures OwnedBy(r, ino, InodeBlock)
    {
      assert OwnedBy(fs, ino, InodeBlock);
    }
  }

  /** Which blocks an inode's map still names, seen from the owners. */
  lemma UntouchedOwner(fs: Fs, fs': Fs, b: nat)
    requires OwnerOk(fs, b) && |fs'.disk| == |fs.disk| && b in fs'.owner && fs'.owner[b] == fs.owner[b]
    requires fs'.dins.Keys == fs.dins.Keys
    requires fs.owner[b].Indirect? || fs.owner[b].Data? ==>
               MapOk(fs, fs.owner[b].ino) && Untouched(fs, fs', fs.owner[b].ino)
    ensures OwnerOk(fs', b)
  {
    match fs.owner[b] {
      case Data(ino, i) => UntouchedMap(fs, fs', ino);
      case _ =>
    }
  }

  lemma TakeKeeps(fs: Fs, loose: set<nat>, b: nat, o: Owner)
    requires Inv(fs, loose) && b < |fs.disk| && fs.free[b]
    ensures fs.unused > 0 && b > 0 && b !in fs.owner
    ensures Inv(Take(fs, b, o), loose + {b}) && forall ino: nat :: ino in fs.dins ==> Untouched(fs, Take(fs, b, o), ino)
  {
    TakeBits(fs, b, o);
    var r := Take(fs, b, o);
    assert forall ino: nat :: ino in fs.dins ==> Untouched(fs, r, ino);
    forall ino: nat | ino in r.dins
      ensures MapOk(r, ino)
    {
      UntouchedMap(fs, r, ino);
    }
    forall c: nat | c in r.owner && c !in loose + {b}
      ensures OwnerOk(r, c)
    {
      UntouchedOwner(fs, r, c);
    }
  }

  lemma ReleaseKeeps(fs: Fs, loose: set<nat>, b: nat)
    requires Inv(fs, loose) && b in fs.owner && b > 0 && fs.owner[b] != InodeBlock && !OwnerOk(fs, b)
    ensures b < |fs.free| && Inv(Release(fs, b), loose - {b})
    ensures forall ino: nat :: ino in fs.dins ==> Untouched(fs, Release(fs, b), ino)
  {
    ReleaseBits(fs, b);
    var r := Release(fs, b);
    assert forall ino: nat :: ino in fs.dins ==> Untouched(fs, r, ino);
    forall ino: nat | ino in r.dins
      ensures MapOk(r, ino)
    {
      UntouchedMap(fs, r, ino);
    }
    forall c: nat | c in r.owner && c !in loose - {b}
      ensures OwnerOk(r, c)
    {
      UntouchedOwner(fs, r, c);
    }
  }

  // ----- changes to the map of one inode -----

  /** Stores `v` as entry `i` of the block map. */
  ghost function SetMap(fs: Fs, ino: nat, i: nat, v: nat, blocks: nat): Fs
    requires ino in fs.dins && DinShape(fs.dins[ino], |fs.disk|) && i < MAXBLKS && v < 0x1_0000_0000
  {
    var d := fs.dins[ino];
    if i < NDIRECT then Fs(fs.disk, fs.free, fs.unused,
          fs.dins[ino := Din(d.size, blocks, d.direct[i := v], d.indirect)], fs.owner)
    else Fs(fs.disk[d.indirect := SetEntry(fs.disk[d.indirect], i - NDIRECT, v)], fs.free, fs.unused,
            fs.dins[ino := Din(d.size, blocks, d.direct, d.indirect)], fs.owner)
  }

  lemma SetMapKeys(fs: Fs, ino: nat, i: nat, v: nat, blocks: nat)
    requires ino in fs.dins && DinShape(fs.dins[ino], |fs.disk|) && i < MAXBLKS && v < 0x1_0000_0000
    ensures var r := SetMap(fs, ino, i, v, blocks);
            && r.dins.Keys == fs.dins.Keys && |r.disk| == |fs.disk| && r.owner == fs.owner && r.free == fs.free
               && r.unused == fs.unused
            && r.dins[ino].blocks == blocks && r.dins[ino].size == fs.dins[ino].size
               && r.dins[ino].indirect == fs.dins[ino].indirect
  {
  }

  /** Only entry `i` of the map changes. */
  lemma SetMapEntry(fs: Fs, ino: nat, i: nat, v: nat, blocks: nat, j: nat)
    requires ino in fs.dins && DinShape(fs.dins[ino], |fs.disk|) && i < MAXBLKS && v < 0x1_0000_0000
             && blocks <= MAXBLKS
    requires i >= NDIRECT ==> fs.dins[ino].indirect != 0
    requires j < MAXBLKS
    ensures var r := SetMap(fs, ino, i, v, blocks);
            DinShape(r.dins[ino], |r.disk|) && BlockOf(r.disk, r.dins[ino], j) == if j == i then v
                  else BlockOf(fs.disk, fs.dins[ino], j)
  {
    if i >= NDIRECT && j >= NDIRECT {
      EntryRoundTrip(fs.disk[fs.dins[ino].indirect], i - NDIRECT, v, j - NDIRECT);
    }
  }

  /** The index block belongs to this inode, so no other map and no data changes. */
  lemma SetMapOthers(fs: Fs, ino: nat, i: nat, v: nat, blocks: nat, other: nat)
    requires MapOk(fs, ino) && i < MAXBLKS && v < 0x1_0000_0000 && (i >= NDIRECT ==> fs.dins[ino].indirect != 0)
    requires other in fs.dins && other != ino
    ensures Untouched(fs, SetMap(fs, ino, i, v, blocks), other)
  {
  }

  lemma SetMapBits(fs: Fs, ino: nat, i: nat, v: nat, blocks: nat)
    requires BitsOk(fs) && ino in fs.dins && DinShape(fs.dins[ino], |fs.disk|) && i < MAXBLKS && v < 0x1_0000_0000
    ensures BitsOk(SetMap(fs, ino, i, v, blocks))
  {
    var r := SetMap(fs, ino, i, v, blocks);
    forall n: nat | n in r.dins
      ensures OwnedBy(r, n, InodeBlock)
    {
      assert OwnedBy(fs, n, InodeBlock);
    }
  }

  /** Blocks used for other entries stay what they are. */
  lemma SetMapOwner(fs: Fs, ino: nat, i: nat, v: nat, blocks: nat, c: nat)
    requires MapOk(fs, ino) && i < MAXBLKS && v < 0x1_0000_0000 && (i >= NDIRECT ==> fs.dins[ino].indirect != 0)
    requires blocks <= MAXBLKS && OwnerOk(fs, c)
    requires fs.owner[c].Data? && fs.owner[c].ino == ino ==> fs.owner[c].i != i && fs.owner[c].i < blocks
    requires fs.owner[c].Data? && fs.owner[c].ino != ino ==> MapOk(fs, fs.owner[c].ino)
    ensures OwnerOk(SetMap(fs, ino, i, v, blocks), c)
  {
    match fs.owner[c] {
      case Data(n, j) =>
        if n == ino {
          SetMapEntry(fs, ino, i, v, blocks, j);
        } else {
          SetMapOthers(fs, ino, i, v, blocks, n);
          UntouchedMap(fs, SetMap(fs, ino, i, v, blocks), n);
        }
      case _ =>
    }
  }

  /** Block `b`, allocated for it, becomes the next block of the file. */
  ghost predicate CanLink(fs: Fs, loose: set<nat>, ino: nat, b: nat) {
    && Inv(fs, loose) && ino in fs.dins && fs.dins[ino].blocks < MAXBLKS
    && (fs.dins[ino].blocks >= NDIRECT ==> fs.dins[ino].indirect != 0)
    && b in loose && b < 0x1_0000_0000 && OwnedBy(fs, b, Data(ino, fs.dins[ino].blocks))
  }

  ghost function Link(fs: Fs, ino: nat, b: nat): Fs
    requires ino in fs.dins && DinShape(fs.dins[ino], |fs.disk|) && fs.dins[ino].blocks < MAXBLKS && b < 0x1_0000_0000
  {
    SetMap(fs, ino, fs.dins[ino].blocks, b, fs.dins[ino].blocks + 1)
  }

  lemma LinkMap(fs: Fs, loose: set<nat>, ino: nat, b: nat)
    requires CanLink(fs, loose, ino, b)
    ensures MapOk(fs, ino) && MapOk(Link(fs, ino, b), ino)
    ensures forall i: nat :: i < MAXBLKS ==>
              BlockOf(Link(fs, ino, b).disk, Link(fs, ino, b).dins[ino], i) ==
              if i == fs.dins[ino].blocks then b else BlockOf(fs.disk, fs.dins[ino], i)
  {
    assert MapOk(fs, ino);
    var n, r := fs.dins[ino].blocks, Link(fs, ino, b);
    forall i: nat | i < MAXBLKS
      ensures BlockOf(r.disk, r.dins[ino], i) == if i == n then b else BlockOf(fs.disk, fs.dins[ino], i)
    {
      SetMapEntry(fs, ino, n, b, n + 1, i);
    }
    forall i: nat | i < r.dins[ino].blocks
      ensures OwnedBy(r, BlockOf(r.disk, r.dins[ino], i), Data(ino, i))
    {
      assert i < n ==> OwnedBy(fs, BlockOf(fs.disk, fs.dins[ino], i), Data(ino, i));
    }
  }

  lemma LinkOwners(fs: Fs, loose: set<nat>, ino: nat, b: nat, c: nat)
    requires CanLink(fs, loose, ino, b) && c in fs.owner && c !in loose - {b} && MapOk(fs, ino)
    ensures OwnerOk(Link(fs, ino, b), c)
  {
    hide DinOk, BitsOk, BlockOf, SetMap;
    MapFacts(fs, ino);
    LinkMap(fs, loose, ino, b);
    MapFacts(Link(fs, ino, b), ino);
    var n := fs.dins[ino].blocks;
    SetMapKeys(fs, ino, n, b, n + 1);
    if c != b {
      assert OwnerOk(fs, c);
      SetMapOwner(fs, ino, n, b, n + 1, c);
    }
  }

  lemma LinkKeeps(fs: Fs, loose: set<nat>, ino: nat, b: nat)
    requires CanLink(fs, loose, ino, b)
    ensures MapOk(fs, ino) && Inv(Link(fs, ino, b), loose - {b}) && |Link(fs, ino, b).disk| == |fs.disk|
    ensures forall other: nat :: other in fs.dins && other != ino ==> Untouched(fs, Link(fs, ino, b), other)
  {
    hide DinOk, OwnerOk, Untouched, BitsOk, SetMap;
    LinkMap(fs, loose, ino, b);
    MapFacts(fs, ino);
    var n, r := fs.dins[ino].blocks, Link(fs, ino, b);
    SetMapBits(fs, ino, n, b, n + 1);
    SetMapKeys(fs, ino, n, b, n + 1);
    forall other: nat | other in fs.dins && other != ino
      ensures Untouched(fs, r, other) && MapOk(r, other)
    {
      SetMapOthers(fs, ino, n, b, n + 1, other);
      UntouchedMap(fs, r, other);
    }
    forall c: nat | c in r.owner && c !in loose - {b}
      ensures OwnerOk(r, c)
    {
      LinkOwners(fs, loose, ino, b, c);
    }
  }

  /** The new block reads as its disk block; everything before it is unchanged. */
  lemma LinkBytes(fs: Fs, loose: set<nat>, ino: nat, b: nat, p: nat)
    requires CanLink(fs, loose, ino, b) && p < (fs.dins[ino].blocks + 1) * BLKSIZE
    ensures MapOk(fs, ino) && MapOk(Link(fs, ino, b), ino)
    ensures RawAt(Link(fs, ino, b), ino, p) ==
            if p < fs.dins[ino].blocks * BLKSIZE then RawAt(fs, ino, p) else fs.disk[b][p % BLKSIZE]
  {
    LinkMap(fs, loose, ino, b);
    var n := fs.dins[ino].blocks;
    if p / BLKSIZE < n {
      assert OwnedBy(fs, BlockOf(fs.disk, fs.dins[ino], p / BLKSIZE), Data(ino, p / BLKSIZE));
    } else {
      assert p / BLKSIZE == n;
    }
  }

  // ----- the index block -----

  ghost function LinkIndex(fs: Fs, ino: nat, e: nat): Fs
    requires ino in fs.dins
  {
    var d := fs.dins[ino];
    Fs(fs.disk, fs.free, fs.unused, fs.dins[ino := Din(d.size, d.blocks, d.direct, e)], fs.owner)
  }

  /** A cleared block allocated for it becomes the index block of the file. */
  lemma LinkIndexKeeps(fs: Fs, loose: set<nat>, ino: nat, e: nat)
    requires Inv(fs, loose) && ino in fs.dins && fs.dins[ino].indirect == 0
    requires e in loose && OwnedBy(fs, e, Indirect(ino)) && fs.disk[e] == Zeros()
    ensures Inv(LinkIndex(fs, ino, e), loose - {e})
    ensures forall other: nat :: other in fs.dins && other != ino ==> Untouched(fs, LinkIndex(fs, ino, e), other)
  {
    var r, d := LinkIndex(fs, ino, e), fs.dins[ino];
    assert MapOk(fs, ino);
    LinkIndexMap(fs, loose, ino, e);
    forall other: nat | other in fs.dins && other != ino
      ensures Untouched(fs, r, other) && MapOk(r, other)
    {
      UntouchedMap(fs, r, other);
    }
    forall n: nat | n in r.dins
      ensures OwnedBy(r, n, InodeBlock)
    {
      assert OwnedBy(fs, n, InodeBlock);
    }
    forall c: nat | c in r.owner && c !in loose - {e}
      ensures OwnerOk(r, c)
    {
      if c != e {
        assert OwnerOk(fs, c);
        if fs.owner[c].Data? && fs.owner[c].ino != ino {
          UntouchedMap(fs, r, fs.owner[c].ino);
        }
      }
    }
  }

  lemma LinkIndexMap(fs: Fs, loose: set<nat>, ino: nat, e: nat)
    requires MapOk(fs, ino) && fs.dins[ino].indirect == 0
    requires OwnedBy(fs, e, Indirect(ino)) && fs.disk[e] == Zeros()
    ensures MapOk(LinkIndex(fs, ino, e), ino)
    ensures forall i: nat :: i < MAXBLKS ==>
              BlockOf(fs.disk, LinkIndex(fs, ino, e).dins[ino], i) == BlockOf(fs.disk, fs.dins[ino], i)
  {
    var r := LinkIndex(fs, ino, e);
    forall i: nat | i < MAXBLKS
      ensures BlockOf(r.disk, r.dins[ino], i) == BlockOf(fs.disk, fs.dins[ino], i)
    {
      if i >= NDIRECT {
        ZeroEntries(i - NDIRECT);
      }
    }
    forall i: nat | i < r.dins[ino].blocks
      ensures OwnedBy(r, BlockOf(r.disk, r.dins[ino], i), Data(ino, i))
    {
      assert OwnedBy(fs, BlockOf(fs.disk, fs.dins[ino], i), Data(ino, i));
    }
  }

  // ----- dropping the last block -----

  ghost function Unlink(fs: Fs, ino: nat): Fs
    requires ino in fs.dins && DinShape(fs.dins[ino], |fs.disk|) && fs.dins[ino].blocks > 0
  {
    SetMap(fs, ino, fs.dins[ino].blocks - 1, 0, fs.dins[ino].blocks - 1)
  }

  lemma UnlinkMap(fs: Fs, ino: nat)
    requires MapOk(fs, ino) && fs.dins[ino].blocks > 0
    ensures MapOk(Unlink(fs, ino), ino)
    ensures forall i: nat :: i < MAXBLKS ==>
              BlockOf(Unlink(fs, ino).disk, Unlink(fs, ino).dins[ino], i) ==
              if i == fs.dins[ino].blocks - 1 then 0 else BlockOf(fs.disk, fs.dins[ino], i)
  {
    var n, r := fs.dins[ino].blocks - 1, Unlink(fs, ino);
    forall i: nat | i < MAXBLKS
      ensures BlockOf(r.disk, r.dins[ino], i) == if i == n then 0 else BlockOf(fs.disk, fs.dins[ino], i)
    {
      SetMapEntry(fs, ino, n, 0, n, i);
    }
    forall i: nat | i < n
      ensures OwnedBy(r, BlockOf(r.disk, r.dins[ino], i), Data(ino, i))
    {
      assert OwnedBy(fs, BlockOf(fs.disk, fs.dins[ino], i), Data(ino, i));
    }
  }

  /** The dropped block is still marked used, but no map names it. */
  lemma UnlinkLoose(fs: Fs, ino: nat)
    requires MapOk(fs, ino) && fs.dins[ino].blocks > 0
    ensures var b := BlockOf(fs.disk, fs.dins[ino], fs.dins[ino].blocks - 1);
            && OwnedBy(fs, b, Data(ino, fs.dins[ino].blocks - 1))
            && OwnedBy(Unlink(fs, ino), b, Data(ino, fs.dins[ino].blocks - 1)) && !OwnerOk(Unlink(fs, ino), b)
            && |Unlink(fs, ino).disk| == |fs.disk|
  {
    assert OwnedBy(fs, BlockOf(fs.disk, fs.dins[ino], fs.dins[ino].blocks - 1), Data(ino, fs.dins[ino].blocks - 1));
  }

  lemma UnlinkOwners(fs: Fs, ino: nat, c: nat)
    requires Inv(fs, {}) && ino in fs.dins && fs.dins[ino].blocks > 0 && c in fs.owner
    requires MapOk(fs, ino) && c != BlockOf(fs.disk, fs.dins[ino], fs.dins[ino].blocks - 1)
    ensures OwnerOk(Unlink(fs, ino), c)
  {
    hide DinOk, BitsOk, BlockOf, SetMap;
    MapFacts(fs, ino);
    assert OwnerOk(fs, c);
    SetMapOwner(fs, ino, fs.dins[ino].blocks - 1, 0, fs.dins[ino].blocks - 1, c);
  }

  lemma UnlinkKeeps(fs: Fs, ino: nat)
    requires Inv(fs, {}) && ino in fs.dins && fs.dins[ino].blocks > 0
    ensures MapOk(fs, ino)
    ensures Inv(Unlink(fs, ino), {BlockOf(fs.disk, fs.dins[ino], fs.dins[ino].blocks - 1)})
    ensures forall other: nat :: other in fs.dins && other != ino ==> Untouched(fs, Unlink(fs, ino), other)
  {
    hide DinOk, OwnerOk, Untouched, BitsOk, SetMap;
    assert MapOk(fs, ino);
    MapFacts(fs, ino);
    UnlinkMap(fs, ino);
    var n, r := fs.dins[ino].blocks - 1, Unlink(fs, ino);
    var b := BlockOf(fs.disk, fs.dins[ino], n);
    SetMapBits(fs, ino, n, 0, n);
    SetMapKeys(fs, ino, n, 0, n);
    forall other: nat | other in fs.dins && other != ino
      ensures Untouched(fs, r, other) && MapOk(r, other)
    {
      SetMapOthers(fs, ino, n, 0, n, other);
      UntouchedMap(fs, r, other);
    }
    forall c: nat | c in r.owner && c !in {b}
      ensures OwnerOk(r, c)
    {
      UnlinkOwners(fs, ino, c);
    }
  }

  lemma UnlinkBytes(fs: Fs, ino: nat, p: nat)
    requires MapOk(fs, ino) && fs.dins[ino].blocks > 0 && p < (fs.dins[ino].blocks - 1) * BLKSIZE
    ensures MapOk(Unlink(fs, ino), ino) && RawAt(Unlink(fs, ino), ino, p) == RawAt(fs, ino, p)
  {
    UnlinkMap(fs, ino);
    assert OwnedBy(fs, BlockOf(fs.disk, fs.dins[ino], p / BLKSIZE), Data(ino, p / BLKSIZE));
  }

  // ----- data -----

  function Overwrite(b: Block, off: nat, data: seq<byte>): (r: Block)
    requires off + |data| <= BLKSIZE
    ensures forall k :: 0 <= k < BLKSIZE ==> r[k] == if off <= k < off + |data| then data[k - off] else b[k]
  {
    b[..off] + data + b[off + |data|..]
  }

  /** `sfs_wbuf` or `sfs_wblock` into block `i` of the file. */
  ghost function PutData(fs: Fs, ino: nat, i: nat, off: nat, data: seq<byte>): Fs
    requires MapOk(fs, ino) && i < fs.dins[ino].blocks && off + |data| <= BLKSIZE
  {
    assert OwnedBy(fs, BlockOf(fs.disk, fs.dins[ino], i), Data(ino, i));
    var b := BlockOf(fs.disk, fs.dins[ino], i);
    Fs(fs.disk[b := Overwrite(fs.disk[b], off, data)], fs.free, fs.unused, fs.dins, fs.owner)
  }

  /** Data blocks are not index blocks and belong to one file, so no map changes. */
  lemma PutDataMaps(fs: Fs, ino: nat, i: nat, off: nat, data: seq<byte>, other: nat)
    requires MapOk(fs, ino) && i < fs.dins[ino].blocks && off + |data| <= BLKSIZE && MapOk(fs, other)
    ensures forall j: nat :: j < MAXBLKS ==>
              BlockOf(PutData(fs, ino, i, off, data).disk, fs.dins[other], j) == BlockOf(fs.disk, fs.dins[other], j)
    ensures MapOk(PutData(fs, ino, i, off, data), other)
    ensures other != ino ==> Untouched(fs, PutData(fs, ino, i, off, data), other)
  {
    var r := PutData(fs, ino, i, off, data);
    var b := BlockOf(fs.disk, fs.dins[ino], i);
    assert OwnedBy(fs, b, Data(ino, i));
    forall j: nat | j < fs.dins[other].blocks
      ensures OwnedBy(r, BlockOf(r.disk, fs.dins[other], j), Data(other, j))
    {
      assert OwnedBy(fs, BlockOf(fs.disk, fs.dins[other], j), Data(other, j));
    }
  }

  lemma PutDataKeeps(fs: Fs, ino: nat, i: nat, off: nat, data: seq<byte>)
    requires Inv(fs, {}) && ino in fs.dins && i < fs.dins[ino].blocks && off + |data| <= BLKSIZE
    ensures MapOk(fs, ino) && Inv(PutData(fs, ino, i, off, data), {})
    ensures forall other: nat :: other in fs.dins && other != ino ==>
              Untouched(fs, PutData(fs, ino, i, off, data), other)
  {
    assert MapOk(fs, ino);
    var r := PutData(fs, ino, i, off, data);
    forall other: nat | other in fs.dins
      ensures MapOk(r, other) && (other != ino ==> Untouched(fs, r, other))
    {
      PutDataMaps(fs, ino, i, off, data, other);
    }
    forall n: nat | n in r.dins
      ensures OwnedBy(r, n, InodeBlock)
    {
      assert OwnedBy(fs, n, InodeBlock);
    }
    forall c: nat | c in r.owner
      ensures OwnerOk(r, c)
    {
      assert OwnerOk(fs, c);
      if fs.owner[c].Data? {
        PutDataMaps(fs, ino, i, off, data, fs.owner[c].ino);
      }
    }
  }

  lemma PutDataBytes(fs: Fs, ino: nat, i: nat, off: nat, data: seq<byte>, p: nat)
    requires MapOk(fs, ino) && i < fs.dins[ino].blocks && off + |data| <= BLKSIZE && p < fs.dins[ino].blocks * BLKSIZE
    ensures MapOk(PutData(fs, ino, i, off, data), ino)
    ensures RawAt(PutData(fs, ino, i, off, data), ino, p) ==
            var q := i * BLKSIZE + off; if q <= p < q + |data| then data[p - q] else RawAt(fs, ino, p)
  {
    PutDataMaps(fs, ino, i, off, data, ino);
    assert OwnedBy(fs, BlockOf(fs.disk, fs.dins[ino], i), Data(ino, i));
    assert OwnedBy(fs, BlockOf(fs.disk, fs.dins[ino], p / BLKSIZE), Data(ino, p / BLKSIZE));
    assert p == p / BLKSIZE * BLKSIZE + p % BLKSIZE;
  }

  ghost function SetSize(fs: Fs, ino: nat, size: nat): Fs
    requires ino in fs.dins
  {
    var d := fs.dins[ino];
    Fs(fs.disk, fs.free, fs.unused, fs.dins[ino := Din(size, d.blocks, d.direct, d.indirect)], fs.owner)
  }
}
