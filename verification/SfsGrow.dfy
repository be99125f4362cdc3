/**
 Growing and shrinking an SFS file by one block, as steps on the whole file
 system: what they do to the file, to every other file and to the free count.
 */
module SfsGrow {
  import opened SfsBlocks

  /** `bitmap_alloc` takes the lowest free bit; -1 when there is none. */
  function FirstFree(free: seq<bool>): (r: int)
    ensures r < 0 <==> forall b :: 0 <= b < |free| ==> !free[b]
    ensures r >= 0 ==> r < |free| && free[r] && forall b :: 0 <= b < r ==> !free[b]
  {
    FirstFreeFrom(free, 0)
  }

  function FirstFreeFrom(free: seq<bool>, i: nat): (r: int)
    requires i <= |free| && forall b :: 0 <= b < i ==> !free[b]
    ensures r < 0 <==> forall b :: 0 <= b < |free| ==> !free[b]
    ensures r >= 0 ==> i <= r < |free| && free[r] && forall b :: 0 <= b < r ==> !free[b]
    decreases |free| - i
  {
    if i == |free| then -1 else if free[i] then i else FirstFreeFrom(free, i + 1)
  }

  /** Blocks the next extension needs: one, or two when the index block is missing. */
  function Need(d: Din): nat {
    if d.blocks >= NDIRECT && d.indirect == 0 then 2 else 1
  }

  lemma FreeLeft(free: seq<bool>)
    ensures CountFree(free) >= 1 <==> FirstFree(free) >= 0
    ensures FirstFree(free) >= 0 ==> CountFree(free[FirstFree(free) := false]) == CountFree(free) - 1
  {
    CountPositive(free);
    if FirstFree(free) >= 0 {
      CountSet(free, FirstFree(free), false);
    }
  }

  lemma FreeCount(fs: Fs)
    requires Inv(fs, {})
    ensures BitsOk(fs) && fs.unused == CountFree(fs.free) && |fs.free| == |fs.disk|
    ensures fs.unused >= 1 <==> FirstFree(fs.free) >= 0
    ensures FirstFree(fs.free) >= 0 ==> CountFree(fs.free[FirstFree(fs.free) := false]) == fs.unused - 1
    ensures FirstFree(fs.free) >= 0 ==> (fs.unused >= 2 <==> FirstFree(fs.free[FirstFree(fs.free) := false]) >= 0)
  {
    FreeLeft(fs.free);
    if FirstFree(fs.free) >= 0 {
      FreeLeft(fs.free[FirstFree(fs.free) := false]);
    }
  }

  lemma UntouchedTrans(a: Fs, b: Fs, c: Fs, ino: nat)
    requires MapOk(a, ino) && Untouched(a, b, ino) && Untouched(b, c, ino) && b.dins.Keys == a.dins.Keys
    ensures Untouched(a, c, ino)
  {
    forall x: nat | OwnerOk(a, x) && Of(a.owner[x], ino)
      ensures x in c.owner && c.owner[x] == a.owner[x] && c.disk[x] == a.disk[x]
    {
      UntouchedOwner(a, b, x);
    }
  }

  // ----- one block more -----

  /** The block the file system hands out next, for use `o`. */
  ghost function TakeFirst(fs: Fs, o: Owner): Fs
    requires BitsOk(fs) && FirstFree(fs.free) >= 0
  {
    TakeBits(fs, FirstFree(fs.free), o);
    Take(fs, FirstFree(fs.free), o)
  }

  lemma TakeFirstKeeps(fs: Fs, loose: set<nat>, o: Owner)
    requires Inv(fs, loose) && FirstFree(fs.free) >= 0
    ensures var b := FirstFree(fs.free); var r := TakeFirst(fs, o);
            && 0 < b < 0x8000_0000 && |r.disk| == |fs.disk| && b !in fs.owner && OwnedBy(r, b, o)
               && r.disk[b] == Zeros()
            && Inv(r, loose + {b}) && r.dins == fs.dins && r.unused == fs.unused - 1
            && (forall ino: nat :: ino in fs.dins ==> Untouched(fs, r, ino))
  {
    TakeKeeps(fs, loose, FirstFree(fs.free), o);
  }

  /** Everything about the file system with block `b` appended to file `ino`. */
  ghost predicate Appended(fs: Fs, r: Fs, ino: nat) {
    && Inv(fs, {}) && Inv(r, {}) && ino in fs.dins && r.dins.Keys == fs.dins.Keys && |r.disk| == |fs.disk|
    && r.dins[ino].blocks == fs.dins[ino].blocks + 1 && r.dins[ino].size == fs.dins[ino].size
    && (fs.dins[ino].indirect != 0 ==> r.dins[ino].indirect == fs.dins[ino].indirect)
    && (r.dins[ino].blocks <= NDIRECT ==> r.dins[ino].indirect == fs.dins[ino].indirect)
    && r.unused == fs.unused - Need(fs.dins[ino])
    && (forall other: nat :: other in fs.dins && other != ino ==> Untouched(fs, r, other))
    && (forall p: nat :: p < r.dins[ino].blocks * BLKSIZE ==>
          Byte(r, ino, p) == if p < fs.dins[ino].blocks * BLKSIZE then Byte(fs, ino, p) else 0)
  }

  /** `RawAt` for use under quantifiers. */
  ghost function Byte(fs: Fs, ino: nat, p: nat): byte {
    if MapOk(fs, ino) && p < fs.dins[ino].blocks * BLKSIZE then RawAt(fs, ino, p) else 0
  }

  /** Appends the first free block when no index block is missing. */
  ghost function GrowPlain(fs: Fs, ino: nat): Fs
    requires Inv(fs, {}) && ino in fs.dins && fs.dins[ino].blocks < MAXBLKS && FirstFree(fs.free) >= 0
  {
    assert MapOk(fs, ino);
    Link(TakeFirst(fs, Data(ino, fs.dins[ino].blocks)), ino, FirstFree(fs.free))
  }

  lemma GrowPlainAppends(fs: Fs, ino: nat)
    requires Inv(fs, {}) && ino in fs.dins && fs.dins[ino].blocks < MAXBLKS && FirstFree(fs.free) >= 0
    requires fs.dins[ino].blocks >= NDIRECT ==> fs.dins[ino].indirect != 0
    ensures Appended(fs, GrowPlain(fs, ino), ino)
  {
    hide DinOk, OwnerOk, BitsOk, Untouched;
    assert MapOk(fs, ino);
    var b, n := FirstFree(fs.free), fs.dins[ino].blocks;
    TakeFirstKeeps(fs, {}, Data(ino, n));
    var t, r := TakeFirst(fs, Data(ino, n)), GrowPlain(fs, ino);
    assert {} + {b} == {b} && {b} - {b} == {};
    assert CanLink(t, {b}, ino, b);
    LinkKeeps(t, {b}, ino, b);
    forall other: nat | other in fs.dins && other != ino
      ensures Untouched(fs, r, other)
    {
      UntouchedTrans(fs, t, r, other);
    }
    forall p: nat | p < (n + 1) * BLKSIZE
      ensures Byte(r, ino, p) == if p < n * BLKSIZE then Byte(fs, ino, p) else 0
    {
      LinkBytes(t, {b}, ino, b, p);
      if p < n * BLKSIZE {
        UntouchedBytes(fs, t, ino, p);
      }
    }
  }

  /** The two blocks an extension past the direct ones takes: the index block, then
      the data block. */
  ghost function TakeTwo(fs: Fs, ino: nat): Fs
    requires Inv(fs, {}) && ino in fs.dins && fs.unused >= 2
  {
    var t := TakeIndex(fs, ino);
    TakeFirst(t, Data(ino, fs.dins[ino].blocks))
  }

  ghost function TakeIndex(fs: Fs, ino: nat): (t: Fs)
    requires Inv(fs, {}) && ino in fs.dins && fs.unused >= 1
    ensures BitsOk(t) && t.unused == fs.unused - 1 && (fs.unused >= 2 ==> FirstFree(t.free) >= 0)
  {
    FreeLeft(fs.free);
    TakeBits(fs, FirstFree(fs.free), Indirect(ino));
    FreeLeft(TakeFirst(fs, Indirect(ino)).free);
    TakeFirst(fs, Indirect(ino))
  }

  lemma TakeTwoKeeps(fs: Fs, ino: nat)
    requires Inv(fs, {}) && ino in fs.dins && fs.unused >= 2
    ensures FirstFree(fs.free) >= 0
    ensures var e, n := FirstFree(fs.free), fs.dins[ino].blocks;
            var b, t := FirstFree(TakeIndex(fs, ino).free), TakeTwo(fs, ino);
            && 0 < e < |t.disk| && 0 < b < 0x8000_0000 && e != b && |t.disk| == |fs.disk| && t.dins == fs.dins
               && t.unused == fs.unused - 2
            && OwnedBy(t, e, Indirect(ino)) && t.disk[e] == Zeros() && OwnedBy(t, b, Data(ino, n))
               && t.disk[b] == Zeros()
            && Inv(t, {e, b})
            && (forall other: nat :: other in fs.dins ==> Untouched(fs, t, other))
  {
    hide DinOk, OwnerOk, Untouched, BitsOk, OwnedBy;
    FreeCount(fs);
    var e, x, t := FirstFree(fs.free), TakeIndex(fs, ino), TakeTwo(fs, ino);
    TakeFirstKeeps(fs, {}, Indirect(ino));
    assert {} + {e} == {e};
    TakeFirstKeeps(x, {e}, Data(ino, fs.dins[ino].blocks));
    assert {e} + {FirstFree(x.free)} == {e, FirstFree(x.free)};
    forall other: nat | other in fs.dins
      ensures Untouched(fs, t, other)
    {
      UntouchedTrans(fs, x, t, other);
    }
    StillOwned(x, t, e, Indirect(ino));
  }

  lemma StillOwned(x: Fs, t: Fs, e: nat, o: Owner)
    requires BitsOk(x) && OwnedBy(x, e, o) && FirstFree(x.free) >= 0 && exists o' :: t == TakeFirst(x, o')
    ensures OwnedBy(t, e, o) && e != FirstFree(x.free) && t.disk[e] == x.disk[e]
  {
  }

  ghost function GrowBoth(fs: Fs, ino: nat): Fs
    requires Inv(fs, {}) && ino in fs.dins && fs.unused >= 2 && fs.dins[ino].blocks < MAXBLKS
  {
    TakeTwoKeeps(fs, ino);
    assert MapOk(fs, ino);
    Link(LinkIndex(TakeTwo(fs, ino), ino, FirstFree(fs.free)), ino, FirstFree(TakeIndex(fs, ino).free))
  }

  lemma GrowBothAppends(fs: Fs, ino: nat)
    requires Inv(fs, {}) && ino in fs.dins && Need(fs.dins[ino]) == 2 && CanGrow(fs, ino)
    ensures Appended(fs, GrowBoth(fs, ino), ino)
  {
    hide DinOk, OwnerOk, Untouched, BitsOk;
    TakeTwoKeeps(fs, ino);
    assert MapOk(fs, ino);
    var e, b, n := FirstFree(fs.free), FirstFree(TakeIndex(fs, ino).free), fs.dins[ino].blocks;
    var t, r := TakeTwo(fs, ino), GrowBoth(fs, ino);
    LinkIndexKeeps(t, {e, b}, ino, e);
    var x := LinkIndex(t, ino, e);
    assert {e, b} - {e} == {b} && {b} - {b} == {};
    assert CanLink(x, {b}, ino, b);
    LinkKeeps(x, {b}, ino, b);
    forall other: nat | other in fs.dins && other != ino
      ensures Untouched(fs, r, other)
    {
      UntouchedTrans(fs, t, x, other);
      UntouchedTrans(fs, x, r, other);
    }
    forall p: nat | p < (n + 1) * BLKSIZE
      ensures Byte(r, ino, p) == if p < n * BLKSIZE then Byte(fs, ino, p) else 0
    {
      LinkBytes(x, {b}, ino, b, p);
      if p < n * BLKSIZE {
        UntouchedBytes(fs, t, ino, p);
        LinkIndexBytes(t, {e, b}, ino, e, p);
      }
    }
  }

  lemma LinkIndexBytes(t: Fs, loose: set<nat>, ino: nat, e: nat, p: nat)
    requires MapOk(t, ino) && t.dins[ino].indirect == 0 && OwnedBy(t, e, Indirect(ino)) && t.disk[e] == Zeros()
    requires p < t.dins[ino].blocks * BLKSIZE
    ensures MapOk(LinkIndex(t, ino, e), ino) && RawAt(LinkIndex(t, ino, e), ino, p) == RawAt(t, ino, p)
  {
    LinkIndexMap(t, loose, ino, e);
  }

  predicate CanGrow(fs: Fs, ino: nat) {
    ino in fs.dins && fs.dins[ino].blocks < MAXBLKS && fs.unused >= Need(fs.dins[ino])
  }

  /** `sfs_bmap_load_nolock` one past the last block, when it succeeds. */
  ghost function Grow(fs: Fs, ino: nat): Fs
    requires Inv(fs, {}) && CanGrow(fs, ino)
  {
    FreeLeft(fs.free);
    if Need(fs.dins[ino]) == 2 then GrowBoth(fs, ino) else GrowPlain(fs, ino)
  }

  lemma GrowAppends(fs: Fs, ino: nat)
    requires Inv(fs, {}) && CanGrow(fs, ino)
    ensures Appended(fs, Grow(fs, ino), ino)
  {
    FreeLeft(fs.free);
    if Need(fs.dins[ino]) == 2 {
      GrowBothAppends(fs, ino);
    } else {
      GrowPlainAppends(fs, ino);
    }
  }

  // ----- one block less -----

  ghost function Shrink(fs: Fs, ino: nat): Fs
    requires Inv(fs, {}) && ino in fs.dins && fs.dins[ino].blocks > 0
  {
    assert MapOk(fs, ino);
    UnlinkLoose(fs, ino);
    Release(Unlink(fs, ino), BlockOf(fs.disk, fs.dins[ino], fs.dins[ino].blocks - 1))
  }

  /** Everything about the file system with the last block of `ino` freed. */
  ghost predicate Shortened(fs: Fs, r: Fs, ino: nat) {
    && Inv(fs, {}) && Inv(r, {}) && ino in fs.dins && r.dins.Keys == fs.dins.Keys && |r.disk| == |fs.disk|
    && r.dins[ino].blocks == fs.dins[ino].blocks - 1 && r.dins[ino].size == fs.dins[ino].size
    && r.dins[ino].indirect == fs.dins[ino].indirect && r.unused == fs.unused + 1
    && (forall other: nat :: other in fs.dins && other != ino ==> Untouched(fs, r, other))
    && (forall p: nat :: p < r.dins[ino].blocks * BLKSIZE ==> Byte(r, ino, p) == Byte(fs, ino, p))
  }

  /** `sfs_bmap_truncate_nolock` */
  lemma ShrinkShortens(fs: Fs, ino: nat)
    requires Inv(fs, {}) && ino in fs.dins && fs.dins[ino].blocks > 0
    ensures Shortened(fs, Shrink(fs, ino), ino)
  {
    hide DinOk, OwnerOk, Untouched, BitsOk, SetMap;
    assert MapOk(fs, ino);
    MapFacts(fs, ino);
    SetMapKeys(fs, ino, fs.dins[ino].blocks - 1, 0, fs.dins[ino].blocks - 1);
    UnlinkLoose(fs, ino);
    UnlinkKeeps(fs, ino);
    var u, r := Unlink(fs, ino), Shrink(fs, ino);
    var b := BlockOf(fs.disk, fs.dins[ino], fs.dins[ino].blocks - 1);
    ReleaseKeeps(u, {b}, b);
    assert {b} - {b} == {};
    forall other: nat | other in fs.dins && other != ino
      ensures Untouched(fs, r, other)
    {
      UntouchedTrans(fs, u, r, other);
    }
    forall p: nat | p < r.dins[ino].blocks * BLKSIZE
      ensures Byte(r, ino, p) == Byte(fs, ino, p)
    {
      UnlinkBytes(fs, ino, p);
      UntouchedBytes(u, r, ino, p);
    }
  }
}
