/**
 The image builder: the free bitmap it writes, which the kernel must be able to mount, and
 the block lists it builds, which the kernel must be able to follow.
 */
module MksfsBitmap {
  import opened SfsBlocks
  import opened Bitmaps

  const BLKBITS: nat := 32768
  const BLKWORDS: nat := 1024

  // ----- words in memory and bytes on disk -----

  /** The number whose binary digits are `bits`, lowest first. */
  function Value(bits: seq<bool>): nat {
    if bits == [] then 0 else (if bits[0] then 1 else 0) + 2 * Value(bits[1..])
  }

  predicate BitIn(v: nat, k: nat) {
    if k == 0 then v % 2 == 1 else BitIn(v / 2, k - 1)
  }

  lemma {:induction false} BitOfValue(bits: seq<bool>, k: nat)
    requires k < |bits|
    ensures BitIn(Value(bits), k) == bits[k]
  {
    if k > 0 {
      assert Value(bits) / 2 == Value(bits[1..]);
      BitOfValue(bits[1..], k - 1);
    }
  }

  lemma {:induction false} ValueBound(bits: seq<bool>, limit: nat)
    requires bits != [] && limit > 0 && Value(bits[1..]) < limit
    ensures Value(bits) < 2 * limit
  {
  }

  lemma FitsByte(bits: seq<bool>)
    requires |bits| == 8
    ensures Value(bits) < 256
  {
    hide Value;
    EmptyValue(bits[8..]);
    Halve(bits, 7, 1);
    Halve(bits, 6, 2);
    Halve(bits, 5, 4);
    Halve(bits, 4, 8);
    Halve(bits, 3, 16);
    Halve(bits, 2, 32);
    Halve(bits, 1, 64);
    Halve(bits, 0, 128);
    assert bits[0..] == bits;
  }

  lemma EmptyValue(bits: seq<bool>)
    requires bits == []
    ensures Value(bits) == 0
  {
  }

  lemma Halve(bits: seq<bool>, i: nat, limit: nat)
    requires i < |bits| && limit > 0 && Value(bits[i + 1..]) < limit
    ensures Value(bits[i..]) < 2 * limit
  {
    assert bits[i..][1..] == bits[i + 1..];
    ValueBound(bits[i..], limit);
  }

  /** Eight bits as a byte. */
  function ByteOf(bits: seq<bool>): byte
    requires |bits| == 8
  {
    FitsByte(bits);
    Value(bits) as byte
  }

  /** The bytes of the words, as they lie in memory and on disk. */
  function AsBytes(words: seq<Word>): Block
    requires |words| == BLKWORDS
  {
    seq(BLKSIZE, i requires 0 <= i < BLKSIZE => ByteOf(words[i / 4][8 * (i % 4)..8 * (i % 4) + 8]))
  }

  /** The words the kernel sees in a block. */
  function WordsOf(b: Block): (words: seq<Word>)
    ensures |words| == BLKWORDS
  {
    seq(BLKWORDS, j requires 0 <= j < BLKWORDS => WordAt(b, j))
  }

  function WordAt(b: Block, j: nat): Word
    requires j < BLKWORDS
  {
    seq(WORD_BITS, k requires 0 <= k < WORD_BITS => BitIn(b[4 * j + k / 8] as nat, k % 8))
  }

  /** What is written is what is read. */
  lemma BytesRoundTrip(words: seq<Word>)
    requires |words| == BLKWORDS
    ensures WordsOf(AsBytes(words)) == words
  {
    var b := AsBytes(words);
    forall j: nat | j < BLKWORDS
      ensures WordAt(b, j) == words[j]
    {
      forall k: nat | k < WORD_BITS
        ensures WordAt(b, j)[k] == words[j][k]
      {
        BitAt(words, j, k);
      }
    }
  }

  lemma BitAt(words: seq<Word>, j: nat, k: nat)
    requires |words| == BLKWORDS && j < BLKWORDS && k < WORD_BITS
    ensures BitIn(AsBytes(words)[4 * j + k / 8] as nat, k % 8) == words[j][k]
  {
    hide BitIn, Value;
    var i := 4 * j + k / 8;
    assert i / 4 == j && i % 4 == k / 8;
    BitOfValue(words[j][8 * (k / 8)..8 * (k / 8) + 8], k % 8);
  }

  predicate Unused(next: nat, ninos: nat, p: nat) {
    next <= p < ninos
  }

  /** Bits of one freemap block, whose first bit stands for block `base` of the image. */
  ghost predicate BlockWritten(words: seq<Word>, base: nat, next: nat, ninos: nat) {
    |words| == BLKWORDS && forall j: nat :: j < BLKBITS ==> (Bit(words, j) <==> Unused(next, ninos, base + j))
  }

  /** One round of the loop in `close_sfs`. */
  method WriteBlock(base: nat, next: nat, ninos: nat) returns (buffer: seq<Word>)
    requires base < ninos && next <= ninos
    ensures BlockWritten(buffer, base, next, ninos)
  {
    buffer := seq(BLKWORDS, _ => Filled(false));
    assert forall i: nat :: i < BLKBITS ==> !Bit(buffer, i);
    if base + BLKBITS > next {
      var start: nat := if base < next then next - base else 0;
      var end: nat := if base + BLKBITS > ninos then ninos - base else BLKBITS;
      var j: nat := start;
      while j < end
        invariant start <= j <= end && |buffer| == BLKWORDS
        invariant forall i: nat :: i < BLKBITS ==> (Bit(buffer, i) <==> start <= i < j)
      {
        SetAll(buffer, j, start);
        buffer := SetBit(buffer, j, true);
        j := j + 1;
      }
      forall i: nat | i < BLKBITS
        ensures Bit(buffer, i) <==> Unused(next, ninos, base + i)
      {
        assert start <= i <==> next <= base + i;
        assert i < end <==> base + i < ninos;
      }
    }
  }

  lemma SetAll(words: seq<Word>, j: nat, start: nat)
    requires |words| == BLKWORDS && start <= j < BLKBITS && forall i: nat :: i < BLKBITS ==>
               (Bit(words, i) <==> start <= i < j)
    ensures forall i: nat :: i < BLKBITS ==> (Bit(SetBit(words, j, true), i) <==> start <= i < j + 1)
  {
    forall i: nat | i < BLKBITS
      ensures Bit(SetBit(words, j, true), i) <==> start <= i < j + 1
    {
      SetBitAt(words, j, true, i);
    }
  }

  /** The number of freemap blocks. */
  /** The fewest blocks with a bit for every block. */
  function MapBlocks(ninos: nat): (n: nat)
    ensures ninos <= 8 * 4096 * n < ninos + 8 * 4096
  {
    (ninos + BLKBITS - 1) / BLKBITS
  }

  /** The blocks of a freemap whose free bits are those of the unused blocks. */
  ghost predicate MapWritten(blocks: seq<Block>, next: nat, ninos: nat) {
    forall b: nat :: b < |blocks| ==> BlockWritten(WordsOf(blocks[b]), b * BLKBITS, next, ninos)
  }

  /** The freemap part of `close_sfs`. */
  method CloseFreemap(next: nat, ninos: nat) returns (blocks: seq<Block>)
    requires next <= ninos
    ensures |blocks| == MapBlocks(ninos) && MapWritten(blocks, next, ninos)
  {
    hide WordsOf, AsBytes;
    blocks := [];
    var i: nat := 0;
    while i < ninos
      invariant i == |blocks| * BLKBITS && |blocks| <= MapBlocks(ninos)
      invariant MapWritten(blocks, next, ninos)
      decreases MapBlocks(ninos) - |blocks|
    {
      var buffer := WriteBlock(i, next, ninos);
      BytesRoundTrip(buffer);
      blocks := blocks + [AsBytes(buffer)];
      i := i + BLKBITS;
    }
  }

  // ----- the kernel's side -----

  /** The words of the blocks, one after the other. */
  function AllWords(blocks: seq<Block>): (words: seq<Word>)
    ensures |words| == |blocks| * BLKWORDS
  {
    if blocks == [] then [] else AllWords(blocks[..|blocks| - 1]) + WordsOf(blocks[|blocks| - 1])
  }

  /** `sfs_init_freemap`. */
  method LoadFreemap(blocks: seq<Block>) returns (words: seq<Word>)
    ensures words == AllWords(blocks)
  {
    hide WordsOf;
    words := [];
    var k: nat := 0;
    while k < |blocks|
      invariant k <= |blocks| && words == AllWords(blocks[..k])
    {
      assert blocks[..k + 1][..k] == blocks[..k];
      words := words + WordsOf(blocks[k]);
      k := k + 1;
    }
    assert blocks[..k] == blocks;
  }

  /** The kernel has the bits that were written. */
  lemma {:induction false} SameBits(blocks: seq<Block>, next: nat, ninos: nat)
    requires MapWritten(blocks, next, ninos)
    ensures forall p: nat :: p < |blocks| * BLKBITS ==> (Bit(AllWords(blocks), p) <==> Unused(next, ninos, p))
  {
    hide WordsOf;
    if blocks != [] {
      var k := |blocks| - 1;
      assert forall b: nat :: b < k ==> blocks[..k][b] == blocks[b];
      SameBits(blocks[..k], next, ninos);
      Appended(AllWords(blocks[..k]), WordsOf(blocks[k]), k, next, ninos);
    }
  }

  lemma Appended(words: seq<Word>, block: seq<Word>, k: nat, next: nat, ninos: nat)
    requires |words| == k * BLKWORDS && BlockWritten(block, k * BLKBITS, next, ninos)
    requires forall p: nat :: p < k * BLKBITS ==> (Bit(words, p) <==> Unused(next, ninos, p))
    ensures forall p: nat :: p < (k + 1) * BLKBITS ==> (Bit(words + block, p) <==> Unused(next, ninos, p))
  {
    forall p: nat | p < (k + 1) * BLKBITS
      ensures Bit(words + block, p) <==> Unused(next, ninos, p)
    {
      if p < k * BLKBITS {
        assert p / WORD_BITS < |words|;
        assert Bit(words + block, p) == Bit(words, p);
      } else {
        var j: nat := p - k * BLKBITS;
        assert p / WORD_BITS == |words| + j / WORD_BITS && p % WORD_BITS == j % WORD_BITS;
        assert Bit(words + block, p) == Bit(block, j);
      }
    }
  }

  /** The count that `sfs_do_mount` compares with the super block. */
  method CountUnused(words: seq<Word>, nbits: nat) returns (unused: nat)
    requires nbits <= WORD_BITS * |words|
    ensures unused == CountFree(Bits(words, nbits))
  {
    unused := 0;
    var i: nat := 0;
    assert Bits(words, 0) == [];
    while i < nbits
      invariant i <= nbits && unused == CountFree(Bits(words, i))
    {
      assert Bits(words, i + 1)[..i] == Bits(words, i);
      if Bit(words, i) {
        unused := unused + 1;
      }
      i := i + 1;
    }
  }

  lemma {:induction false} CountRange(s: seq<bool>, next: nat, ninos: nat)
    requires next <= ninos && forall p: nat :: p < |s| ==> (s[p] <==> Unused(next, ninos, p))
    ensures CountFree(s) == if |s| <= next then 0 else if |s| <= ninos then |s| - next else ninos - next
  {
    if s != [] {
      var front := s[..|s| - 1];
      assert forall p: nat :: p < |front| ==> front[p] == s[p];
      CountRange(front, next, ninos);
    }
  }

  /** The free bits of a freemap that was written by `CloseFreemap`. */
  lemma CountWritten(blocks: seq<Block>, next: nat, ninos: nat)
    requires next <= ninos && |blocks| == MapBlocks(ninos) && MapWritten(blocks, next, ninos)
    ensures CountFree(Bits(AllWords(blocks), MapBlocks(ninos) * BLKBITS)) == ninos - next
  {
    hide AllWords;
    SameBits(blocks, next, ninos);
    CountRange(Bits(AllWords(blocks), MapBlocks(ninos) * BLKBITS), next, ninos);
  }
}
