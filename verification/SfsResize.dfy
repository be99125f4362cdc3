/**
 What resizing promises about contents and block counts, and where the code
 falls short of it.
 */
module SfsResize {
  import opened SfsBlocks
  import opened SfsGrow
  import opened SfsFile

  /** The allocated bytes beyond the size are zeros. */
  ghost predicate TailZero(fs: Fs, ino: nat) {
    ino in fs.dins && forall p: nat :: fs.dins[ino].size <= p < fs.dins[ino].blocks * BLKSIZE ==> Byte(fs, ino, p) == 0
  }

  /** Exactly the blocks the size needs. */
  predicate BlocksExact(d: Din) {
    d.blocks == CeilDiv(d.size)
  }

  ghost function ZeroBytes(n: nat): seq<byte> {
    seq(n, _ => 0)
  }

  /** The bytes that a growth to `len` takes into the file are zeros. */
  ghost predicate Blank(fs: Fs, ino: nat, len: nat) {
    ino in fs.dins && forall p: nat :: fs.dins[ino].size <= p < len ==> Byte(fs, ino, p) == 0
  }

  lemma GrownContent(fs0: Fs, fs: Fs, ino: nat, len: nat)
    requires Resized(fs0, fs, ino, len) && len >= fs0.dins[ino].size
    ensures Content(fs, ino) == Content(fs0, ino) + ZeroBytes(len - fs0.dins[ino].size) <==> Blank(fs0, ino, len)
  {
    hide Inv, Untouched, MapOk;
    var size := fs0.dins[ino].size;
    var grown, padded := Content(fs, ino), Content(fs0, ino) + ZeroBytes(len - size);
    assert len <= CeilDiv(len) * BLKSIZE;
    forall p: nat | p < len
      ensures grown[p] == Byte(fs0, ino, p) && padded[p] == if p < size then Byte(fs0, ino, p) else 0
    {
      assert Byte(fs, ino, p) == Byte(fs0, ino, p);
    }
    if grown == padded {
      forall p: nat | size <= p < len
        ensures Byte(fs0, ino, p) == 0
      {
        assert grown[p] == padded[p];
      }
    }
  }

  /** A write leaves exactly the blocks the size needs, unless it starts past the blocks there are and then
      writes nothing: the size is raised all the same. */
  lemma BlocksAfterWrite(fs0: Fs, fs: Fs, ino: nat, offset: nat, data: seq<byte>)
    requires Updated(fs0, fs, ino, offset, data) && BlocksExact(fs0.dins[ino])
    ensures BlocksExact(fs.dins[ino]) <==> data != [] || CeilDiv(offset) <= fs0.dins[ino].blocks
    ensures offset <= fs0.dins[ino].size ==> BlocksExact(fs.dins[ino])
  {
    hide Inv, Untouched, MapOk;
  }

  /** Growing appends zeros exactly when the bytes it takes in were zeros already, which a clean
      tail ensures; shrinking keeps a prefix; no other file changes. */
  lemma ContentAfterResize(fs0: Fs, fs: Fs, ino: nat, len: nat)
    requires Inv(fs0, {}) && Resized(fs0, fs, ino, len)
    ensures SizeOk(fs, ino) && BlocksExact(fs.dins[ino])
    ensures len <= fs0.dins[ino].size ==> Content(fs, ino) == Content(fs0, ino)[..len]
    ensures len >= fs0.dins[ino].size ==>
              (Content(fs, ino) == Content(fs0, ino) + ZeroBytes(len - fs0.dins[ino].size) <==> Blank(fs0, ino, len))
    ensures forall other: nat :: other in fs0.dins && other != ino ==>
              other in fs.dins && Content(fs, other) == Content(fs0, other)
  {
    hide Inv, Untouched, MapOk;
    assert len <= CeilDiv(len) * BLKSIZE;
    if len >= fs0.dins[ino].size {
      GrownContent(fs0, fs, ino, len);
    }
    forall other: nat | other in fs0.dins && other != ino
      ensures other in fs.dins && Content(fs, other) == Content(fs0, other)
    {
      assert Untouched(fs0, fs, other);
      IndexPresent(fs0, other);
      UntouchedContent(fs0, fs, other);
    }
  }

  /** A write at or below the size keeps the tail clean. */
  lemma TailZeroAfterWrite(fs0: Fs, fs: Fs, ino: nat, offset: nat, data: seq<byte>)
    requires Inv(fs0, {}) && TailZero(fs0, ino) && Updated(fs0, fs, ino, offset, data)
    ensures TailZero(fs, ino)
  {
    hide Inv, Untouched, MapOk;
    forall p: nat | fs.dins[ino].size <= p < fs.dins[ino].blocks * BLKSIZE
      ensures Byte(fs, ino, p) == 0
    {
      assert Byte(fs, ino, p) == Byte(fs0, ino, p);
    }
  }

  /** After a resize the tail is clean exactly when the bytes just past the new length
      were zero already: always for a length on a block boundary. */
  lemma TailZeroAfterResize(fs0: Fs, fs: Fs, ino: nat, len: nat)
    requires Inv(fs0, {}) && Resized(fs0, fs, ino, len)
    ensures TailZero(fs, ino) <==> forall p: nat :: len <= p < CeilDiv(len) * BLKSIZE ==> Byte(fs0, ino, p) == 0
    ensures len % BLKSIZE == 0 ==> TailZero(fs, ino)
  {
    hide Inv, Untouched, MapOk;
    assert forall p: nat :: p < CeilDiv(len) * BLKSIZE ==> Byte(fs, ino, p) == Byte(fs0, ino, p);
    if TailZero(fs, ino) {
      forall p: nat | len <= p < CeilDiv(len) * BLKSIZE
        ensures Byte(fs0, ino, p) == 0
      {
        assert Byte(fs, ino, p) == 0;
      }
    }
  }

  /** A file cut inside a block and grown again shows the bytes that were cut off. */
  lemma StaleBytesReturn(fs0: Fs, fs1: Fs, fs2: Fs, ino: nat, cut: nat, len: nat, p: nat)
    requires Resized(fs0, fs1, ino, cut) && Resized(fs1, fs2, ino, len)
    requires cut <= p < CeilDiv(cut) * BLKSIZE && p < len
    ensures ino in fs2.dins && p < fs2.dins[ino].size && Byte(fs2, ino, p) == Byte(fs0, ino, p)
  {
    hide Inv, Untouched, MapOk;
    assert len <= CeilDiv(len) * BLKSIZE;
    assert Byte(fs1, ino, p) == Byte(fs0, ino, p);
    assert Byte(fs2, ino, p) == Byte(fs1, ino, p);
  }

  /** A growth that runs out of blocks leaves the block count exact if and only if it
      got no block at all, that is, if not even the first one was to be had. */
  lemma FailedGrowth(fs0: Fs, fs: Fs, ino: nat, n: nat)
    requires Written(fs0, fs, ino, 0, [], n) && fs.dins[ino].size == fs0.dins[ino].size
    requires BlocksExact(fs0.dins[ino]) && n < MAXBLKS
    requires Cost(fs0.dins[ino], n + 1) > fs0.unused
    ensures BlocksExact(fs.dins[ino]) <==> fs0.unused < Need(fs0.dins[ino])
  {
    IndexPresent(fs0, ino);
    IndexPresent(fs, ino);
  }

  /** A disk that holds an empty file and, besides, one free block or none. */
  function Tiny(spare: bool): Fs {
    Fs([Zeros(), Zeros()] + (if spare then [Zeros()] else []), [false, false] + (if spare then [true] else []),
       if spare then 1 else 0, map[1 := Din(0, 0, seq(12, _ => 0), 0)], map[0 := Reserved, 1 := InodeBlock])
  }

  lemma TinyOk(spare: bool)
    ensures Inv(Tiny(spare), {}) && SizeOk(Tiny(spare), 1) && BlocksExact(Tiny(spare).dins[1])
  {
    var fs := Tiny(spare);
    var none, used := [], [false, false];
    assert used[..1] == [false] && [false][..0] == none && CountFree(used) == 0;
    assert spare ==> fs.free[..2] == used;
    assert MapOk(fs, 1);
  }

  /** The inexact count does occur: asked for two blocks where there is one, the file keeps a block its size
      does not need, and resizing it to its own size then trips the assertion. */
  method FailedGrowthOccurs() returns (first: Status, d: Din, second: Status)
    ensures first == NoMem && d.size == 0 && d.blocks == 1 && !BlocksExact(d) && second == Panic
  {
    hide Inv, Untouched;
    TinyOk(true);
    var k := new Sfs(Tiny(true));
    first := k.Truncate(1, 2 * BLKSIZE);
    d := k.dins[1];
    second := k.Truncate(1, 0);
  }

  /** So does the raised size: a write behind the end that finds no block has the file end where it would have begun,
      and reading that file then runs out of blocks too. */
  method FailedWriteOccurs() returns (st: Status, alen: nat, d: Din, read: Status)
    ensures st == NoMem && alen == 0 && d.size == 1 && d.blocks == 0 && read == NoMem
  {
    hide Inv, Untouched;
    TinyOk(false);
    var k := new Sfs(Tiny(false));
    st, alen := k.Write(1, [7], 1);
    d := k.dins[1];
    var data;
    read, data := k.Read(1, 1, 0);
  }
}
