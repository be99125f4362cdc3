/** The free-block bitmap, stored in 32-bit words.  A word is the sequence of its bits, lowest first. */
module Bitmaps {
  import opened SfsBlocks
  import opened SfsGrow

  const WORD_BITS: nat := 32

  type Word = w: seq<bool> | |w| == 32 witness seq(32, _ => false)

  function Filled(v: bool): (w: Word)
    ensures forall k: nat :: k < WORD_BITS ==> w[k] == v
  {
    seq(WORD_BITS, _ => v)
  }

  function Bit(words: seq<Word>, i: nat): bool
    requires i < WORD_BITS * |words|
  {
    words[i / WORD_BITS][i % WORD_BITS]
  }

  /** The first `n` bits of the words. */
  ghost function Bits(words: seq<Word>, n: nat): (s: seq<bool>)
    requires n <= WORD_BITS * |words|
    ensures |s| == n && forall i: nat :: i < n ==> s[i] == Bit(words, i)
  {
    seq(n, i requires 0 <= i < n => Bit(words, i))
  }

  function SetBit(words: seq<Word>, i: nat, v: bool): seq<Word>
    requires i < WORD_BITS * |words|
  {
    words[i / WORD_BITS := words[i / WORD_BITS][i % WORD_BITS := v]]
  }

  /** Different indices are different bits of different words, or of the same. */
  lemma SetBitAt(words: seq<Word>, i: nat, v: bool, j: nat)
    requires i < WORD_BITS * |words| && j < WORD_BITS * |words|
    ensures Bit(SetBit(words, i, v), j) == if i == j then v else Bit(words, j)
  {
    if i / WORD_BITS == j / WORD_BITS && i % WORD_BITS == j % WORD_BITS {
      assert i == WORD_BITS * (i / WORD_BITS) + i % WORD_BITS;
      assert j == WORD_BITS * (j / WORD_BITS) + j % WORD_BITS;
    }
  }

  lemma WordSet(w: seq<Word>, ix: nat, offset: nat, v: bool)
    requires ix < |w| && offset < WORD_BITS
    ensures ix * WORD_BITS + offset < WORD_BITS * |w|
    ensures SetBit(w, ix * WORD_BITS + offset, v) == w[ix := w[ix][offset := v]]
  {
  }

  lemma SetBits(words: seq<Word>, n: nat, i: nat, v: bool)
    requires n <= WORD_BITS * |words| && i < WORD_BITS * |words|
    ensures Bits(SetBit(words, i, v), n) == if i < n then Bits(words, n)[i := v] else Bits(words, n)
  {
    forall j: nat | j < n
      ensures Bits(SetBit(words, i, v), n)[j] == if i == j then v else Bits(words, n)[j]
    {
      SetBitAt(words, i, v, j);
    }
  }

  /** The words hold the bits, and what is left over in the last word reads as used. */
  ghost predicate Stores(words: seq<Word>, nbits: nat) {
    && nbits <= WORD_BITS * |words| < nbits + WORD_BITS
    && (forall i: nat :: nbits <= i < WORD_BITS * |words| ==> !Bit(words, i))
  }

  /** The inner loop of `bitmap_alloc`: it always finds a bit. */
  method LowBit(w: Word) returns (offset: nat)
    requires w != Filled(false)
    ensures offset < WORD_BITS && w[offset] && forall k: nat :: k < offset ==> !w[k]
  {
    SomeSet(w);
    offset := 0;
    while offset < WORD_BITS
      invariant offset <= WORD_BITS && forall k: nat :: k < offset ==> !w[k]
    {
      if w[offset] {
        return;
      }
      offset := offset + 1;
    }
    assert false;
  }

  class Bitmap {
    const nbits: nat
    const words: array<Word>

    ghost predicate Valid()
      reads this, words
    {
      Stores(words[..], nbits)
    }

    ghost function Free(): seq<bool>
      requires Valid()
      reads this, words
    {
      Bits(words[..], nbits)
    }

    /** `bitmap_create`: everything free, the leftover bits not. */
    constructor (n: nat)
      requires n > 0
      ensures Valid() && nbits == n && fresh(words)
      ensures forall i: nat :: i < n ==> Free()[i]
    {
      nbits := n;
      var nwords := (n + WORD_BITS - 1) / WORD_BITS;
      words := new Word[nwords](_ => Filled(true));
      new;
      if n != nwords * WORD_BITS {
        var ix := nwords - 1;
        var overbits := n - ix * WORD_BITS;
        assert n / WORD_BITS == ix && 0 < overbits < WORD_BITS;
        while overbits < WORD_BITS
          invariant 0 < overbits <= WORD_BITS && n - ix * WORD_BITS <= overbits
          invariant forall w: nat :: w < ix ==> words[w] == Filled(true)
          invariant forall k: nat :: k < WORD_BITS ==> words[ix][k] == !(n - ix * WORD_BITS <= k < overbits)
        {
          words[ix] := words[ix][overbits := !words[ix][overbits]];
          overbits := overbits + 1;
        }
      }
      forall i: nat | i < WORD_BITS * nwords
        ensures Bit(words[..], i) <==> i < n
      {
        assert i == WORD_BITS * (i / WORD_BITS) + i % WORD_BITS;
      }
    }

    /** `bitmap_alloc`: takes the lowest free bit, if there is one. */
    method Alloc() returns (ok: bool, index: nat)
      requires Valid()
      modifies words
      ensures Valid()
      ensures ok <==> FirstFree(old(Free())) >= 0
      ensures ok ==> index == FirstFree(old(Free())) && Free() == old(Free())[index := false]
      ensures !ok ==> Free() == old(Free())
    {
      hide Bits, FirstFree, Bit, SetBit;
      ghost var w := words[..];
      for ix := 0 to words.Length
        invariant words[..] == w
        invariant forall i: nat :: i < WORD_BITS * ix ==> !Bit(w, i)
      {
        if words[ix] != Filled(false) {
          var offset := LowBit(words[ix]);
          index := ix * WORD_BITS + offset;
          Lowest(w, nbits, ix, offset);
          SetBits(w, nbits, index, false);
          StoresSet(w, nbits, index, false);
          WordSet(w, ix, offset, false);
          words[ix] := words[ix][offset := false];
          assert words[..] == w[ix := w[ix][offset := false]];
          return true, index;
        }
        NextWord(w, ix);
      }
      NoneFree(w, nbits);
      return false, 0;
    }

    /** `bitmap_test`. */
    method Test(index: nat) returns (free: bool)
      requires Valid() && index < nbits
      ensures free == Free()[index]
    {
      free := words[index / WORD_BITS][index % WORD_BITS];
    }

    /** `bitmap_free` of a bit in use. */
    method Release(index: nat)
      requires Valid() && index < nbits && !Free()[index]
      modifies words
      ensures Valid() && Free() == old(Free())[index := true]
    {
      ghost var w := words[..];
      SetBits(w, nbits, index, true);
      StoresSet(w, nbits, index, true);
      words[index / WORD_BITS] := words[index / WORD_BITS][index % WORD_BITS := true];
      assert words[..] == SetBit(w, index, true);
    }
  }

  lemma NextWord(w: seq<Word>, ix: nat)
    requires ix < |w| && w[ix] == Filled(false) && (forall i: nat :: i < WORD_BITS * ix ==> !Bit(w, i))
    ensures forall i: nat :: i < WORD_BITS * (ix + 1) ==> !Bit(w, i)
  {
    forall i: nat | i < WORD_BITS * (ix + 1)
      ensures !Bit(w, i)
    {
      if i >= WORD_BITS * ix {
        assert i / WORD_BITS == ix;
      }
    }
  }

  lemma Lowest(w: seq<Word>, n: nat, ix: nat, offset: nat)
    requires Stores(w, n) && ix < |w| && offset < WORD_BITS && w[ix][offset]
    requires (forall i: nat :: i < WORD_BITS * ix ==> !Bit(w, i)) && (forall k: nat :: k < offset ==> !w[ix][k])
    ensures ix * WORD_BITS + offset < n && FirstFree(Bits(w, n)) == ix * WORD_BITS + offset
  {
    var p := ix * WORD_BITS + offset;
    assert p / WORD_BITS == ix && p % WORD_BITS == offset;
    assert Bit(w, p);
    forall i: nat | i < p
      ensures !Bit(w, i)
    {
      if i >= WORD_BITS * ix {
        assert i / WORD_BITS == ix && i % WORD_BITS < offset;
      }
    }
    var s := Bits(w, n);
    assert s[p];
  }

  lemma NoneFree(w: seq<Word>, n: nat)
    requires n <= WORD_BITS * |w| && (forall i: nat :: i < WORD_BITS * |w| ==> !Bit(w, i))
    ensures FirstFree(Bits(w, n)) < 0
  {
    var s := Bits(w, n);
    assert forall i: nat :: i < n ==> !s[i];
  }

  lemma StoresSet(w: seq<Word>, n: nat, i: nat, v: bool)
    requires Stores(w, n) && i < n
    ensures Stores(SetBit(w, i, v), n)
  {
    forall j: nat | n <= j < WORD_BITS * |w|
      ensures !Bit(SetBit(w, i, v), j)
    {
      SetBitAt(w, i, v, j);
    }
  }

  lemma SomeSet(w: Word)
    requires w != Filled(false)
    ensures exists k: nat :: k < WORD_BITS && w[k]
  {
    assert (forall k: nat :: k < WORD_BITS ==> !w[k]) ==> w == Filled(false);
  }
}
