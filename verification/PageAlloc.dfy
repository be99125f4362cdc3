/** The routines of the first-fit allocator, working in place on the page array and the free list. */
module PageAllocator {
  import opened FreeList
  import opened Options
  import opened FirstFitLists
  import opened FirstFit

  /** What freeing the block does to the pool. */
  ghost predicate Freed(pg: seq<Page>, list: seq<nat>, qg: seq<Page>, o: seq<nat>, b: nat, n: nat) {
    && |pg| == |qg|
    && (forall c: nat :: Free(qg, o, c) <==> Free(pg, list, c) || In(b, n, c))
    && (forall p: nat :: p < |pg| ==>
         qg[p].reserved == pg[p].reserved && qg[p].ref == if In(b, n, p) then 0 else pg[p].ref)
  }

  ghost predicate Taken(pg: seq<Page>, list: seq<nat>, qg: seq<Page>, o: seq<nat>, b: nat, n: nat) {
    && SameOtherwise(pg, qg)
    && (forall c: nat :: In(b, n, c) ==> Free(pg, list, c))
    && (forall c: nat :: Free(qg, o, c) <==> Free(pg, list, c) && !In(b, n, c))
  }

  /** Block `j` is the first that fits. */
  ghost predicate FirstThatFits(pg: seq<Page>, list: seq<nat>, n: nat, j: nat) {
    && j < |list| && list[j] < |pg| && pg[list[j]].property >= n
    && (forall i: nat :: i < j ==> list[i] < |pg| && pg[list[i]].property < n)
  }

  ghost predicate NothingFits(pg: seq<Page>, list: seq<nat>, n: nat) {
    forall i: nat :: i < |list| ==> list[i] < |pg| && pg[list[i]].property < n
  }

  lemma TakeKeeps(pg: seq<Page>, list: seq<nat>, nr: nat, j: nat, n: nat)
    requires PmmOk(pg, list, nr) && n > 0 && j < |list| && list[j] < |pg| && pg[list[j]].property >= n
    ensures n <= nr && list[j] + pg[list[j]].property <= |pg|
    ensures PmmOk(TakenPages(pg, list[j], n), TakenList(pg, list, j, n), nr - n)
    ensures Taken(pg, list, TakenPages(pg, list[j], n), TakenList(pg, list, j, n), list[j], n)
  {
    hide ListOk, Total, Heads, TakenPages, TakenList, Free;
    Within(pg, list, j);
    TotalBounds(list, Sizes(pg), j);
    TakenListOk(pg, list, j, n);
    TakenHeads(pg, list, j, n);
    TakenTotal(pg, list, j, n);
    TakenSame(pg, list[j], n);
  }

  /** More pages than are free in all fit nowhere. */
  lemma TooMany(pg: seq<Page>, list: seq<nat>, nr: nat, n: nat)
    requires PmmOk(pg, list, nr) && n > nr
    ensures NothingFits(pg, list, n)
  {
    hide ListOk, Total, Heads;
    forall i: nat | i < |list|
      ensures list[i] < |pg| && pg[list[i]].property < n
    {
      Within(pg, list, i);
      TotalBounds(list, Sizes(pg), i);
    }
  }

  /** Freeing what was just allocated restores the list, the length of every block and the count. */
  lemma RoundTrip(pg: seq<Page>, list: seq<nat>, nr: nat, qg: seq<Page>, o: seq<nat>, rg: seq<Page>, m: seq<nat>,
                  mr: nat, b: nat, n: nat)
    requires PmmOk(pg, list, nr) && Taken(pg, list, qg, o, b, n)
    requires PmmOk(rg, m, mr) && Freed(qg, o, rg, m, b, n)
    ensures m == list && mr == nr
    ensures forall i: nat :: i < |list| ==> SameSize(list, Sizes(pg), Sizes(rg), i)
  {
    hide Ordered, Coalesced, Total, Heads, Covers;
    forall c: nat
      ensures Covers(list, Sizes(pg), c) <==> Covers(m, Sizes(rg), c)
    {
      assert Free(rg, m, c) <==> Free(qg, o, c) || In(b, n, c);
      assert Free(qg, o, c) <==> Free(pg, list, c) && !In(b, n, c);
      assert In(b, n, c) ==> Free(pg, list, c);
    }
    Canonical(list, Sizes(pg), m, Sizes(rg));
    TotalSame(list, Sizes(pg), Sizes(rg));
  }

  lemma SameSizes(pg: seq<Page>, list: seq<nat>, nr: nat)
    requires PmmOk(pg, list, nr)
    ensures forall i: nat :: i < |list| ==> SameSize(list, Sizes(pg), Sizes(pg), i)
  {
    hide Ordered, Coalesced, Total, Heads, Free;
    forall i: nat | i < |list|
      ensures SameSize(list, Sizes(pg), Sizes(pg), i)
    {
      Within(pg, list, i);
    }
  }

  /** The block just allocated may be freed. */
  lemma TakenBusy(pg: seq<Page>, list: seq<nat>, nr: nat, qg: seq<Page>, o: seq<nat>, b: nat, n: nat)
    requires PmmOk(pg, list, nr) && Taken(pg, list, qg, o, b, n) && n > 0
    ensures Busy(qg, o, b, n)
  {
    hide Ordered, Coalesced, Total, Heads, Free;
    assert In(b, n, b + n - 1);
    assert Usable(pg, b + n - 1);
    forall c: nat | In(b, n, c)
      ensures !qg[c].reserved && !Free(qg, o, c)
    {
      assert Usable(pg, c);
    }
  }

  lemma FreedKeeps(pg: seq<Page>, list: seq<nat>, nr: nat, b: nat, n: nat, rg: seq<Page>, sg: seq<Page>,
                   qg: seq<Page>, l: seq<nat>, base: nat, k: nat)
    requires PmmOk(pg, list, nr) && Busy(pg, list, b, n)
    requires Reset(pg, rg, b, n) && sg == rg[b := rg[b].(property := n, head := true)]
    requires Merging(qg, l, base, |l|) && SamePool(sg, list, b, qg, l, base) && k <= |l|
    requires forall i: nat :: i < k ==> l[i] < base + qg[base].property
    requires k < |l| ==> base + qg[base].property <= l[k]
    ensures PmmOk(qg, InsertAt(l, k, base), nr + n)
    ensures Freed(pg, list, qg, InsertAt(l, k, base), b, n)
  {
    hide Ordered, Coalesced, Total, Heads, Free, Held, Merging;
    StartMerging(pg, list, b, n, rg, sg);
    Finish(qg, l, base, k);
  }

  class Pmm {
    const pages: array<Page>
    var list: seq<nat>
    var nrFree: nat

    ghost predicate Valid()
      reads this, pages
    {
      PmmOk(pages[..], list, nrFree)
    }

    /** No page is free, nor marked as the head of a free block. */
    constructor (at: array<Page>)
      requires forall p: nat :: p < at.Length ==> !at[p].head
      ensures Valid() && pages == at && list == [] && nrFree == 0
    {
      pages, list, nrFree := at, [], 0;
    }

    /** Adds a region above every block of the list. */
    method InitMemmap(b: nat, n: nat)
      requires Valid() && n > 0 && b + n <= pages.Length && (forall c: nat :: In(b, n, c) ==> pages[c].reserved)
      requires forall i: nat :: i < |list| ==> list[i] < pages.Length && list[i] + pages[list[i]].property < b
      modifies this, pages
      ensures Valid() && nrFree == old(nrFree) + n && list == old(list) + [b]
      ensures forall c: nat :: Free(pages[..], list, c) <==> old(Free(pages[..], list, c)) || In(b, n, c)
      ensures forall p: nat :: p < pages.Length && !In(b, n, p) ==> pages[p] == old(pages[p])
    {
      hide PmmOk, Free, InsertAt;
      ghost var pg := pages[..];
      var p := b;
      while p != b + n
        invariant b <= p <= b + n && list == old(list) && nrFree == old(nrFree)
        invariant forall c: nat :: c < pages.Length ==>
                    pages[c] == if In(b, p - b, c) then Page(false, false, 0, 0) else pg[c]
      {
        assert pages[p].reserved by {
          assert In(b, n, p) && pages[p] == pg[p];
        }
        pages[p] := Page(false, false, 0, 0);
        p := p + 1;
      }
      pages[b] := pages[b].(property := n, head := true);
      RegionKeeps(pg, list, nrFree, b, n, pages[..]);
      nrFree := nrFree + n;
      list := list + [b];
    }

    method AllocPages(n: nat) returns (page: Option<nat>, ghost j: nat)
      requires Valid() && n > 0
      modifies this, pages
      ensures Valid()
      ensures page.None? <==> NothingFits(old(pages[..]), old(list), n)
      ensures page.None? ==> pages[..] == old(pages[..]) && list == old(list) && nrFree == old(nrFree)
      ensures page.Some? ==> FirstThatFits(old(pages[..]), old(list), n, j) && page.value == old(list[j])
      ensures page.Some? ==>
                Taken(old(pages[..]), old(list), pages[..], list, page.value, n) && nrFree == old(nrFree) - n
    {
      hide PmmOk, Taken, RemoveAt;
      ghost var pg, l := pages[..], list;
      j := 0;
      if n > nrFree {
        TooMany(pages[..], list, nrFree, n);
        return None, j;
      }
      var i: nat := 0;
      while i < |list|
        invariant i <= |list|
        invariant forall h: nat :: h < i ==> list[h] < pages.Length && pages[list[h]].property < n
        invariant pages[..] == pg && list == l && nrFree == old(nrFree)
      {
        InList(pages[..], list, nrFree, i);
        if pages[list[i]].property >= n {
          break;
        }
        i := i + 1;
      }
      j := i;
      if i < |list| {
        var p := list[i];
        TakeKeeps(pages[..], list, nrFree, i, n);
        if pages[p].property > n {
          pages[p + n] := pages[p + n].(property := pages[p].property - n, head := true);
          list := list[i := p + n];
        } else {
          list := RemoveAt(list, i);
        }
        nrFree := nrFree - n;
        pages[p] := pages[p].(head := false);
        assert pages[..] == TakenPages(pg, p, n);
        return Some(p), j;
      }
      return None, j;
    }

    /** Clears the records of the pages being freed. */
    method ResetPages(b: nat, n: nat)
      requires b + n <= pages.Length && (forall c: nat :: In(b, n, c) ==> !pages[c].reserved && !pages[c].head)
      modifies pages
      ensures Reset(old(pages[..]), pages[..], b, n)
    {
      var p := b;
      while p != b + n
        invariant b <= p <= b + n
        invariant forall c: nat :: c < pages.Length ==>
                    pages[c] == if In(b, p - b, c) then old(pages[c]).(reserved := false, head := false, ref := 0)
                    else old(pages[c])
      {
        assert !pages[p].reserved && !pages[p].head by {
          assert In(b, n, p);
        }
        pages[p] := pages[p].(reserved := false, head := false, ref := 0);
        p := p + 1;
      }
    }

    /** Joins the block `b` to the blocks of the list that touch it, and takes those off the list. */
    method MergeBlocks(b: nat) returns (base: nat)
      requires Merging(pages[..], list, b, 0)
      modifies this`list, pages
      ensures Merging(pages[..], list, base, |list|)
      ensures SamePool(old(pages[..]), old(list), b, pages[..], list, base)
    {
      hide Merging, SamePool;
      base := b;
      ghost var pg, l := pages[..], list;
      MergingFacts(pg, l, b, 0);
      PoolRefl(pg, l, b);
      var i: nat := 0;
      while i < |list|
        invariant i <= |list| && base < pages.Length
        invariant Merging(pages[..], list, base, i)
        invariant SamePool(pg, l, b, pages[..], list, base)
        decreases |list| - i
      {
        var p := list[i];
        MergingFacts(pages[..], list, base, i);
        ghost var qg, o, was := pages[..], list, base;
        if base + pages[base].property == p {
          StepRight(qg, o, base, i);
          pages[base] := pages[base].(property := pages[base].property + pages[p].property);
          pages[p] := pages[p].(head := false);
          list := RemoveAt(list, i);
          assert pages[..] == JoinedRight(qg, was, p);
          PoolTrans(pg, l, b, qg, o, was, pages[..], list, base);
        } else if p + pages[p].property == base {
          StepLeft(qg, o, base, i);
          pages[p] := pages[p].(property := pages[p].property + pages[base].property);
          pages[base] := pages[base].(head := false);
          base := p;
          list := RemoveAt(list, i);
          assert pages[..] == JoinedLeft(qg, was, p);
          PoolTrans(pg, l, b, qg, o, was, pages[..], list, base);
        } else {
          StepPast(qg, o, base, i);
          i := i + 1;
        }
      }
    }

    method FreePages(b: nat, n: nat)
      requires Valid() && Busy(pages[..], list, b, n)
      modifies this, pages
      ensures Valid() && nrFree == old(nrFree) + n
      ensures Freed(old(pages[..]), old(list), pages[..], list, b, n)
    {
      hide PmmOk, Merging, SamePool, Freed, Busy, Reset, InsertAt;
      ghost var pg, l, nr := pages[..], list, nrFree;
      BusyFacts(pg, l, nr, b, n);
      ResetPages(b, n);
      ghost var rg := pages[..];
      SameLength(pg, rg, b, n);
      pages[b] := pages[b].(property := n, head := true);
      ghost var sg := pages[..];
      Begin(pg, l, nr, b, n, rg, sg);
      var base := MergeBlocks(b);
      ghost var qg := pages[..];
      nrFree := nrFree + n;
      MergedFacts(qg, list, base);
      var k: nat := 0;
      while k < |list|
        invariant k <= |list|
        invariant forall i: nat :: i < k ==> list[i] < base + qg[base].property
        invariant pages[..] == qg && Merging(qg, list, base, |list|) && SamePool(sg, l, b, qg, list, base)
                  && nrFree == nr + n
      {
        if base + pages[base].property <= list[k] {
          assert base + pages[base].property != list[k];
          break;
        }
        k := k + 1;
      }
      FreedKeeps(pg, l, nr, b, n, rg, sg, qg, list, base, k);
      list := InsertAt(list, k, base);
    }

    /** An allocation and the release of what it gave: the free list, the length of each block and the count
        are back. */
    method AllocThenFree(n: nat) returns (page: Option<nat>)
      requires Valid() && n > 0
      modifies this, pages
      ensures Valid() && list == old(list) && nrFree == old(nrFree)
      ensures page.None? <==> NothingFits(old(pages[..]), old(list), n)
      ensures forall i: nat :: i < |list| ==> SameSize(list, old(Sizes(pages[..])), Sizes(pages[..]), i)
    {
      hide PmmOk, Taken, Freed, Busy;
      ghost var pg, l, nr, j := pages[..], list, nrFree, 0;
      page, j := AllocPages(n);
      if page.Some? {
        ghost var qg, o := pages[..], list;
        TakenBusy(pg, l, nr, qg, o, page.value, n);
        FreePages(page.value, n);
        RoundTrip(pg, l, nr, qg, o, pages[..], list, nrFree, page.value, n);
      } else {
        SameSizes(pg, l, nr);
      }
    }
  }

  lemma InList(pg: seq<Page>, list: seq<nat>, nr: nat, i: nat)
    requires PmmOk(pg, list, nr) && i < |list|
    ensures list[i] < |pg| && list[i] + pg[list[i]].property <= |pg|
  {
    Within(pg, list, i);
  }

  lemma MergingFacts(pg: seq<Page>, list: seq<nat>, base: nat, i: nat)
    requires Merging(pg, list, base, i)
    ensures base < |pg| && i <= |list| && (i < |list| ==> list[i] < |pg| && list[i] != base)
  {
    hide Ordered, Coalesced;
    if i < |list| {
      SizeAt(list, Sizes(pg), i);
      assert Off(list, Sizes(pg), base, i);
    }
  }

  /** A block that merges with nothing more touches nothing on the list. */
  lemma MergedFacts(pg: seq<Page>, list: seq<nat>, base: nat)
    requires Merging(pg, list, base, |list|)
    ensures base < |pg| && forall i: nat :: i < |list| ==> base + pg[base].property != list[i]
  {
    hide Ordered, Coalesced;
    forall i: nat | i < |list|
      ensures base + pg[base].property != list[i]
    {
      assert Aloof(list, Sizes(pg), base, i);
    }
  }

  lemma PoolRefl(pg: seq<Page>, list: seq<nat>, base: nat)
    requires base < |pg|
    ensures SamePool(pg, list, base, pg, list, base)
  {
  }

  lemma PoolTrans(pg: seq<Page>, l: seq<nat>, b: nat, qg: seq<Page>, o: seq<nat>, c: nat, rg: seq<Page>, m: seq<nat>,
                  d: nat)
    requires SamePool(pg, l, b, qg, o, c) && SamePool(qg, o, c, rg, m, d)
    ensures SamePool(pg, l, b, rg, m, d)
  {
    hide Held, Total;
  }

  lemma StepRight(pg: seq<Page>, list: seq<nat>, base: nat, i: nat)
    requires Merging(pg, list, base, i) && i < |list| && list[i] < |pg| && base < |pg|
             && base + pg[base].property == list[i]
    ensures Merging(JoinedRight(pg, base, list[i]), RemoveAt(list, i), base, i)
    ensures SamePool(pg, list, base, JoinedRight(pg, base, list[i]), RemoveAt(list, i), base)
  {
    hide Merging, SamePool, Absorbed, Heads;
    RightAbsorbed(pg, list, base, i);
    AbsorbStep(pg, list, base, i, JoinedRight(pg, base, list[i]), base);
  }

  lemma StepLeft(pg: seq<Page>, list: seq<nat>, base: nat, i: nat)
    requires Merging(pg, list, base, i) && i < |list| && list[i] < |pg| && base < |pg|
             && list[i] + pg[list[i]].property == base
    ensures Merging(JoinedLeft(pg, base, list[i]), RemoveAt(list, i), list[i], i)
    ensures SamePool(pg, list, base, JoinedLeft(pg, base, list[i]), RemoveAt(list, i), list[i])
  {
    hide Merging, SamePool, Absorbed, Heads;
    LeftAbsorbed(pg, list, base, i);
    AbsorbStep(pg, list, base, i, JoinedLeft(pg, base, list[i]), list[i]);
  }

  lemma StepPast(pg: seq<Page>, list: seq<nat>, base: nat, i: nat)
    requires Merging(pg, list, base, i) && i < |list| && list[i] < |pg| && base < |pg|
    requires list[i] + pg[list[i]].property != base && base + pg[base].property != list[i]
    ensures Merging(pg, list, base, i + 1)
  {
    hide Loose, Heads;
    assert Aloof(list, Sizes(pg), base, i);
  }

  lemma BusyFacts(pg: seq<Page>, list: seq<nat>, nr: nat, b: nat, n: nat)
    requires PmmOk(pg, list, nr) && Busy(pg, list, b, n)
    ensures n > 0 && b + n <= |pg| && forall c: nat :: In(b, n, c) ==> !pg[c].reserved && !pg[c].head
  {
    hide Ordered, Coalesced;
    forall c: nat | In(b, n, c)
      ensures !pg[c].head
    {
      if c in list {
        var i :| 0 <= i < |list| && list[i] == c;
        Within(pg, list, i);
        HoldsCovers(list, Sizes(pg), i, c);
      }
    }
  }

  lemma SameLength(pg: seq<Page>, rg: seq<Page>, b: nat, n: nat)
    requires Reset(pg, rg, b, n)
    ensures |pg| == |rg|
  {
  }

  lemma Begin(pg: seq<Page>, list: seq<nat>, nr: nat, b: nat, n: nat, rg: seq<Page>, sg: seq<Page>)
    requires PmmOk(pg, list, nr) && Busy(pg, list, b, n) && b < |rg|
    requires Reset(pg, rg, b, n) && sg == rg[b := rg[b].(property := n, head := true)]
    ensures Merging(sg, list, b, 0)
  {
    hide ListOk, Heads, Total, Busy, Reset, Merging, Free, Held;
    StartMerging(pg, list, b, n, rg, sg);
  }

  lemma RegionKeeps(pg: seq<Page>, list: seq<nat>, nr: nat, b: nat, n: nat, qg: seq<Page>)
    requires PmmOk(pg, list, nr) && n > 0 && b + n <= |pg| == |qg|
    requires forall i: nat :: i < |list| ==> list[i] < |pg| && list[i] + pg[list[i]].property < b
    requires forall c: nat :: c < |pg| ==>
               qg[c] == if c == b then Page(false, true, n, 0) else if In(b, n, c) then Page(false, false, 0, 0)
               else pg[c]
    ensures PmmOk(qg, list + [b], nr + n)
    ensures forall c: nat :: Free(qg, list + [b], c) <==> Free(pg, list, c) || In(b, n, c)
  {
    hide Ordered, Coalesced, Total, Covers;
    var u, v, k := Sizes(pg), Sizes(qg), |list|;
    forall i: nat | i < k
      ensures SameSize(list, u, v, i) && Off(list, v, b, i) && Aloof(list, v, b, i)
    {
    }
    SameList(list, u, v);
    TotalSame(list, u, v);
    InsertLoose(list, v, b, k);
    TotalInsert(list, v, k, b);
    assert InsertAt(list, k, b) == list + [b];
    forall c: nat
      ensures Covers(list + [b], v, c) <==> Covers(list, u, c) || In(b, n, c)
    {
      CoversInsert(list, v, k, b, n, c);
      assert v[b := n] == v;
    }
    forall c: nat | Free(qg, list + [b], c)
      ensures Usable(qg, c)
    {
      assert Free(pg, list, c) ==> Usable(pg, c);
    }
    forall p: nat | p < |qg|
      ensures qg[p].head <==> p in Set(list + [b])
    {
      InsertHas(list, k, b, p);
    }
  }
}
