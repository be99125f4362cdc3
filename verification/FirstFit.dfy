/**
 The first-fit page allocator.  Blocks are runs of page frames; the free list is a
 sequence of their first frames and each frame of the page array has a `property`, which
 is the length of the block it heads.
 */
module FirstFitLists {
  import opened FreeList

  // ----- coalesced lists are canonical -----

  /** Coalesced blocks leave a gap between any two of them. */
  lemma Far(order: seq<nat>, units: map<nat, nat>, i: nat, j: nat)
    requires Ordered(order, units) && Coalesced(order, units) && i < j < |order|
    ensures order[i] in units && units[order[i]] > 0 && order[i] + units[order[i]] < order[j]
  {
    hide Ordered;
    Beside(order, units, j, i);
    assert Apart(order, units, i);
    if i + 1 < j {
      Beside(order, units, j, i + 1);
      Beside(order, units, i + 1, i);
    }
  }

  lemma SizeAt(order: seq<nat>, units: map<nat, nat>, i: nat)
    requires Ordered(order, units) && i < |order|
    ensures order[i] in units && units[order[i]] > 0
  {
    assert Sized(order, units, i);
  }

  /** The units on either side of a coalesced block are not free. */
  lemma Bounded(order: seq<nat>, units: map<nat, nat>, i: nat, c: nat)
    requires Ordered(order, units) && Coalesced(order, units) && i < |order|
    requires order[i] in units && (c == order[i] + units[order[i]] || c + 1 == order[i])
    ensures !Covers(order, units, c)
  {
    hide Ordered, Coalesced;
    SizeAt(order, units, i);
    forall j: nat
      ensures !Holds(order, units, j, c)
    {
      if i < j < |order| {
        Far(order, units, i, j);
      } else if j < i {
        Far(order, units, j, i);
      }
    }
  }

  /** A block starts exactly where free units start. */
  lemma StartsAt(order: seq<nat>, units: map<nat, nat>, a: nat)
    requires Ordered(order, units) && Coalesced(order, units)
    ensures a in order <==> Covers(order, units, a) && (a > 0 ==> !Covers(order, units, a - 1))
  {
    hide Ordered, Coalesced;
    if a in order {
      var i :| 0 <= i < |order| && order[i] == a;
      SizeAt(order, units, i);
      assert Holds(order, units, i, a);
      if a > 0 {
        Bounded(order, units, i, a - 1);
      }
    } else if Covers(order, units, a) {
      var i: nat :| Holds(order, units, i, a);
      assert Holds(order, units, i, a - 1);
    }
  }

  /** Ascending sequences with the same elements are equal. */
  lemma {:induction false} SortedUnique(a: seq<nat>, u: map<nat, nat>, b: seq<nat>, v: map<nat, nat>)
    requires Ordered(a, u) && Ordered(b, v)
    requires forall x: nat :: x in a <==> x in b
    ensures a == b
  {
    assert a != [] ==> a[0] in b;
    assert b != [] ==> b[0] in a;
    if a != [] && b != [] {
      var n, m := |a| - 1, |b| - 1;
      LastIsMost(a, u, b[m]);
      LastIsMost(b, v, a[n]);
      assert a[n] == b[m];
      InFront(a, u);
      InFront(b, v);
      forall x: nat
        ensures x in a[..n] <==> x in b[..m]
      {
        FrontHas(a, u, x);
        FrontHas(b, v, x);
      }
      SortedUnique(a[..n], u, b[..m], v);
      assert a == a[..n] + [a[n]] && b == b[..m] + [b[m]];
    }
  }

  lemma LastIsMost(a: seq<nat>, u: map<nat, nat>, x: nat)
    requires Ordered(a, u) && a != []
    ensures x in a ==> x <= a[|a| - 1]
  {
    if x in a {
      var i :| 0 <= i < |a| && a[i] == x;
      if i < |a| - 1 {
        Less(a, u, i, |a| - 1);
      }
    }
  }

  lemma InFront(a: seq<nat>, u: map<nat, nat>)
    requires Ordered(a, u) && a != []
    ensures Ordered(a[..|a| - 1], u)
  {
    var f, n := a[..|a| - 1], |a| - 1;
    forall i: nat | i < n
      ensures Sized(f, u, i)
    {
      assert Sized(a, u, i);
    }
    forall i: nat, j: nat | i < j < n
      ensures Clear(f, u, i, j)
    {
      assert Clear(a, u, i, j);
    }
  }

  lemma FrontHas(a: seq<nat>, u: map<nat, nat>, x: nat)
    requires Ordered(a, u) && a != []
    ensures x in a[..|a| - 1] <==> x in a && x != a[|a| - 1]
  {
    hide Ordered;
    var f, n := a[..|a| - 1], |a| - 1;
    if x in f {
      var i :| 0 <= i < n && f[i] == x;
      Less(a, u, i, n);
    }
    if x in a && x != a[n] {
      var i :| 0 <= i < n && a[i] == x;
      assert f[i] == x;
    }
  }

  /** The set of free units determines the list and the length of every block. */
  lemma Canonical(a: seq<nat>, u: map<nat, nat>, b: seq<nat>, v: map<nat, nat>)
    requires Ordered(a, u) && Coalesced(a, u) && Ordered(b, v) && Coalesced(b, v)
    requires forall c: nat :: Covers(a, u, c) <==> Covers(b, v, c)
    ensures a == b
    ensures forall i: nat :: i < |a| ==> SameSize(a, u, v, i)
  {
    hide Ordered, Coalesced, Covers;
    forall x: nat
      ensures x in a <==> x in b
    {
      StartsAt(a, u, x);
      StartsAt(b, v, x);
    }
    SortedUnique(a, u, b, v);
    forall i: nat | i < |a|
      ensures SameSize(a, u, v, i)
    {
      SizeAt(a, u, i);
      SizeAt(b, v, i);
      var s, t: nat := u[a[i]], v[a[i]];
      Bounded(a, u, i, a[i] + s);
      Bounded(b, v, i, a[i] + t);
      if s < t {
        HoldsCovers(b, v, i, a[i] + s);
      } else if t < s {
        HoldsCovers(a, u, i, a[i] + t);
      }
    }
  }

  lemma HoldsCovers(order: seq<nat>, units: map<nat, nat>, i: nat, c: nat)
    requires Holds(order, units, i, c)
    ensures Covers(order, units, c)
  {
  }

  // ----- the total -----

  function Total(order: seq<nat>, units: map<nat, nat>): nat {
    if order == [] then 0
    else Total(order[..|order| - 1], units) + if order[|order| - 1] in units then units[order[|order| - 1]] else 0
  }

  lemma {:induction false} TotalRemove(order: seq<nat>, units: map<nat, nat>, k: nat)
    requires k < |order| && order[k] in units
    ensures Total(order, units) == Total(RemoveAt(order, k), units) + units[order[k]]
  {
    var n := |order| - 1;
    if k == n {
      assert RemoveAt(order, k) == order[..n];
    } else {
      TotalRemove(order[..n], units, k);
      var r := RemoveAt(order, k);
      assert r[..n - 1] == RemoveAt(order[..n], k) && r[n - 1] == order[n];
    }
  }

  lemma {:induction false} TotalSame(order: seq<nat>, u: map<nat, nat>, v: map<nat, nat>)
    requires forall i: nat :: i < |order| ==> SameSize(order, u, v, i)
    ensures Total(order, u) == Total(order, v)
  {
    if order != [] {
      var n := |order| - 1;
      assert SameSize(order, u, v, n);
      forall i: nat | i < n
        ensures SameSize(order[..n], u, v, i)
      {
        assert SameSize(order, u, v, i);
      }
      TotalSame(order[..n], u, v);
    }
  }

  lemma TotalInsert(order: seq<nat>, units: map<nat, nat>, k: nat, b: nat)
    requires k <= |order| && b in units
    ensures Total(InsertAt(order, k, b), units) == Total(order, units) + units[b]
  {
    TotalRemove(InsertAt(order, k, b), units, k);
    assert RemoveAt(InsertAt(order, k, b), k) == order;
  }

  /** One block is never longer than all of them together. */
  lemma TotalBounds(order: seq<nat>, units: map<nat, nat>, k: nat)
    requires k < |order| && order[k] in units
    ensures units[order[k]] <= Total(order, units)
  {
    TotalRemove(order, units, k);
  }

  lemma CutTotal(order: seq<nat>, units: map<nat, nat>, j: nat, n: nat, o: seq<nat>, v: map<nat, nat>)
    requires Cut(order, units, j, n, o, v)
    ensures Total(o, v) == Total(order, units) - n
  {
    hide Total;
    TotalRemove(order, units, j);
    var r := RemoveAt(order, j);
    forall i: nat | i < |r|
      ensures SameSize(r, units, v, i)
    {
      assert SameSize(order, units, v, if i < j then i else i + 1);
    }
    TotalSame(r, units, v);
    if units[order[j]] > n {
      TotalInsert(r, v, j, order[j] + n);
      assert InsertAt(r, j, order[j] + n) == o;
    }
  }

  // ----- a block that is being freed -----

  predicate Off(order: seq<nat>, units: map<nat, nat>, base: nat, i: nat) {
    && i < |order| && order[i] in units && base in units
    && (order[i] + units[order[i]] <= base || base + units[base] <= order[i])
  }

  predicate Aloof(order: seq<nat>, units: map<nat, nat>, base: nat, i: nat) {
    && i < |order| && order[i] in units && base in units
    && order[i] + units[order[i]] != base && base + units[base] != order[i]
  }

  /** The list is sound and the block `base` overlaps nothing on it. */
  ghost predicate Loose(order: seq<nat>, units: map<nat, nat>, base: nat) {
    && Ordered(order, units) && Coalesced(order, units)
    && base in units && units[base] > 0
    && (forall i: nat :: i < |order| ==> Off(order, units, base, i))
  }

  /** The free units, those of the loose block included. */
  ghost predicate Held(order: seq<nat>, units: map<nat, nat>, base: nat, c: nat) {
    Covers(order, units, c) || (base in units && In(base, units[base], c))
  }

  /** Block `i` of the list touches the loose block; the two are now one loose block `lo`. */
  ghost predicate Absorbed(order: seq<nat>, units: map<nat, nat>, base: nat, i: nat, o: seq<nat>, v: map<nat, nat>,
                           lo: nat) {
    && i < |order| && base in units && order[i] in units
    && o == RemoveAt(order, i)
    && ((base + units[base] == order[i] && lo == base) || (order[i] + units[order[i]] == base && lo == order[i]))
    && v == units[lo := units[base] + units[order[i]]]
  }

  lemma OrderedRemove(order: seq<nat>, units: map<nat, nat>, k: nat)
    requires Ordered(order, units) && k < |order|
    ensures Ordered(RemoveAt(order, k), units)
  {
    var o := RemoveAt(order, k);
    forall i: nat | i < |o|
      ensures Sized(o, units, i)
    {
      assert Sized(order, units, if i < k then i else i + 1);
    }
    forall i: nat, j: nat | i < j < |o|
      ensures Clear(o, units, i, j)
    {
      assert Clear(order, units, if i < k then i else i + 1, if j < k then j else j + 1);
    }
  }

  lemma CoalescedRemove(order: seq<nat>, units: map<nat, nat>, k: nat)
    requires Ordered(order, units) && Coalesced(order, units) && k < |order|
    ensures Coalesced(RemoveAt(order, k), units)
  {
    var o := RemoveAt(order, k);
    forall i: nat | i < |o|
      ensures Apart(o, units, i)
    {
      var i0 := if i < k then i else i + 1;
      if i + 1 < |o| {
        Far(order, units, i0, if i + 1 < k then i + 1 else i + 2);
      }
    }
  }

  /** The sizes of blocks that are not on the list do not matter. */
  lemma SameList(order: seq<nat>, u: map<nat, nat>, v: map<nat, nat>)
    requires Ordered(order, u) && (forall i: nat :: i < |order| ==> SameSize(order, u, v, i))
    ensures Ordered(order, v) && (Coalesced(order, u) ==> Coalesced(order, v))
    ensures forall c: nat :: Covers(order, u, c) <==> Covers(order, v, c)
  {
    forall i: nat | i < |order|
      ensures Sized(order, v, i) && (Apart(order, u, i) ==> Apart(order, v, i))
    {
      assert Sized(order, u, i) && SameSize(order, u, v, i);
    }
    forall i: nat, j: nat | i < j < |order|
      ensures Clear(order, v, i, j)
    {
      assert Clear(order, u, i, j) && SameSize(order, u, v, i);
    }
    forall c: nat, i: nat
      ensures Holds(order, u, i, c) <==> Holds(order, v, i, c)
    {
      if i < |order| {
        assert SameSize(order, u, v, i);
      }
    }
  }

  lemma AbsorbLoose(order: seq<nat>, units: map<nat, nat>, base: nat, i: nat, o: seq<nat>, v: map<nat, nat>, lo: nat)
    requires Loose(order, units, base) && Absorbed(order, units, base, i, o, v, lo)
    ensures Loose(o, v, lo)
  {
    hide Ordered, Coalesced;
    OrderedRemove(order, units, i);
    CoalescedRemove(order, units, i);
    forall j: nat | j < |o|
      ensures SameSize(o, units, v, j) && Off(o, v, lo, j)
    {
      var j0 := if j < i then j else j + 1;
      Beside(order, units, i, j0);
      assert Off(order, units, base, j0) && Off(order, units, base, i);
    }
    SameList(o, units, v);
  }

  lemma AbsorbHeld(order: seq<nat>, units: map<nat, nat>, base: nat, i: nat, o: seq<nat>, v: map<nat, nat>, lo: nat,
                   c: nat)
    requires Loose(order, units, base) && Absorbed(order, units, base, i, o, v, lo)
    ensures Held(o, v, lo, c) <==> Held(order, units, base, c)
  {
    hide Ordered, Coalesced;
    if Covers(o, v, c) {
      var j: nat :| Holds(o, v, j, c);
      var j0 := if j < i then j else j + 1;
      Beside(order, units, i, j0);
      assert Off(order, units, base, j0);
      assert Holds(order, units, j0, c);
    }
    if In(lo, v[lo], c) && !In(base, units[base], c) {
      assert Holds(order, units, i, c);
    }
    if Covers(order, units, c) {
      var j: nat :| Holds(order, units, j, c);
      if j != i {
        Beside(order, units, i, j);
        assert Off(order, units, base, j);
        assert Holds(o, v, if j < i then j else j - 1, c);
      }
    }
  }

  /** Blocks already passed stay clear of the growing block. */
  lemma AbsorbAloof(order: seq<nat>, units: map<nat, nat>, base: nat, i: nat, o: seq<nat>, v: map<nat, nat>, lo: nat,
                    k: nat)
    requires Loose(order, units, base) && Absorbed(order, units, base, i, o, v, lo)
    requires k < i && Aloof(order, units, base, k)
    ensures Aloof(o, v, lo, k)
  {
    hide Ordered, Coalesced;
    Far(order, units, k, i);
    assert Off(order, units, base, k) && Off(order, units, base, i);
    SizeAt(order, units, i);
  }

  lemma AbsorbTotal(order: seq<nat>, units: map<nat, nat>, base: nat, i: nat, o: seq<nat>, v: map<nat, nat>, lo: nat)
    requires Loose(order, units, base) && Absorbed(order, units, base, i, o, v, lo)
    ensures Total(o, v) + v[lo] == Total(order, units) + units[base]
  {
    hide Ordered, Coalesced;
    TotalRemove(order, units, i);
    forall j: nat | j < |o|
      ensures SameSize(o, units, v, j)
    {
      var j0 := if j < i then j else j + 1;
      Beside(order, units, i, j0);
      assert Off(order, units, base, j0);
    }
    TotalSame(o, units, v);
  }

  // ----- putting the loose block on the list -----

  lemma InsertLoose(order: seq<nat>, units: map<nat, nat>, base: nat, k: nat)
    requires Loose(order, units, base) && k <= |order|
    requires forall i: nat :: i < |order| ==> Aloof(order, units, base, i)
    requires forall i: nat :: i < k ==> order[i] < base + units[base]
    requires k < |order| ==> base + units[base] <= order[k]
    ensures base !in order
    ensures Ordered(InsertAt(order, k, base), units) && Coalesced(InsertAt(order, k, base), units)
  {
    hide Coalesced, Ordered;
    var o := InsertAt(order, k, base);
    forall i: nat | i < |order|
      ensures order[i] != base
    {
      assert Off(order, units, base, i);
      SizeAt(order, units, i);
    }
    forall i: nat | i < k
      ensures Clear(o, units, i, k)
    {
      assert Off(order, units, base, i);
      SizeAt(order, units, i);
    }
    forall i: nat | k <= i < |order|
      ensures base + units[base] <= order[i]
    {
      if k < i {
        Less(order, units, k, i);
      }
    }
    assert units[base := units[base]] == units;
    OrderedInsert(order, units, k, base, units[base]);
    InsertApart(order, units, base, k);
  }

  lemma InsertApart(order: seq<nat>, units: map<nat, nat>, base: nat, k: nat)
    requires Coalesced(order, units) && base in units && k <= |order| && base !in order
    requires forall i: nat :: i < |order| ==> Aloof(order, units, base, i)
    ensures Coalesced(InsertAt(order, k, base), units)
  {
    var o := InsertAt(order, k, base);
    forall i: nat | i < |o|
      ensures Apart(o, units, i)
    {
      if i == k {
        if k < |order| {
          assert Aloof(order, units, base, k);
        }
      } else if i + 1 == k {
        assert Aloof(order, units, base, i);
      } else {
        ApartInsert(order, units, k, base, units[base], i);
        assert units[base := units[base]] == units;
      }
    }
  }
}

module FirstFit {
  import opened FreeList
  import opened FirstFitLists

  datatype Page = Page(reserved: bool, head: bool, property: nat, ref: nat)

  function Sizes(pg: seq<Page>): map<nat, nat> {
    map i: nat | i < |pg| :: pg[i].property
  }

  ghost predicate Free(pg: seq<Page>, list: seq<nat>, c: nat) {
    Covers(list, Sizes(pg), c)
  }

  /** `PG_property` marks exactly the given block heads. */
  ghost predicate Heads(pg: seq<Page>, heads: set<nat>) {
    forall p: nat :: p < |pg| ==> (pg[p].head <==> p in heads)
  }

  ghost predicate Usable(pg: seq<Page>, c: nat) {
    c < |pg| && !pg[c].reserved
  }

  ghost predicate ListOk(pg: seq<Page>, list: seq<nat>) {
    && Ordered(list, Sizes(pg)) && Coalesced(list, Sizes(pg))
    && (forall c: nat :: Free(pg, list, c) ==> Usable(pg, c))
  }

  ghost predicate PmmOk(pg: seq<Page>, list: seq<nat>, nr: nat) {
    ListOk(pg, list) && Heads(pg, Set(list)) && nr == Total(list, Sizes(pg))
  }

  /** The page records agree but for the allocator's own fields. */
  ghost predicate SameOtherwise(pg: seq<Page>, qg: seq<Page>) {
    && |pg| == |qg|
    && (forall p: nat :: p < |pg| ==> qg[p].reserved == pg[p].reserved && qg[p].ref == pg[p].ref)
  }

  ghost function Set(list: seq<nat>): set<nat> {
    set p | p in list
  }

  // ----- allocating -----

  function TakenPages(pg: seq<Page>, p: nat, n: nat): seq<Page>
    requires p < |pg| && 0 < n && (n < pg[p].property ==> p + n < |pg|)
  {
    var rest := if pg[p].property > n then pg[p + n := pg[p + n].(property := pg[p].property - n, head := true)]
          else pg;
    rest[p := rest[p].(head := false)]
  }

  function TakenList(pg: seq<Page>, list: seq<nat>, j: nat, n: nat): seq<nat>
    requires j < |list| && list[j] < |pg|
  {
    if pg[list[j]].property > n then list[j := list[j] + n] else RemoveAt(list, j)
  }

  lemma Within(pg: seq<Page>, list: seq<nat>, j: nat)
    requires ListOk(pg, list) && j < |list|
    ensures list[j] < |pg| && pg[list[j]].property > 0 && list[j] + pg[list[j]].property <= |pg|
  {
    hide Ordered, Coalesced;
    SizeAt(list, Sizes(pg), j);
    HoldsCovers(list, Sizes(pg), j, list[j] + pg[list[j]].property - 1);
    assert Free(pg, list, list[j] + pg[list[j]].property - 1);
  }

  lemma TakenCut(pg: seq<Page>, list: seq<nat>, j: nat, n: nat)
    requires ListOk(pg, list) && j < |list| && list[j] < |pg| && 0 < n <= pg[list[j]].property
             && list[j] + pg[list[j]].property <= |pg|
    ensures Cut(list, Sizes(pg), j, n, TakenList(pg, list, j, n), Sizes(TakenPages(pg, list[j], n)))
  {
    hide Ordered, Coalesced;
    var u, v := Sizes(pg), Sizes(TakenPages(pg, list[j], n));
    forall i: nat | i < |list| && i != j
      ensures SameSize(list, u, v, i)
    {
      Beside(list, u, j, i);
    }
  }

  lemma TakenListOk(pg: seq<Page>, list: seq<nat>, j: nat, n: nat)
    requires ListOk(pg, list) && j < |list| && list[j] < |pg| && 0 < n <= pg[list[j]].property
             && list[j] + pg[list[j]].property <= |pg|
    ensures ListOk(TakenPages(pg, list[j], n), TakenList(pg, list, j, n))
    ensures forall c: nat :: Free(TakenPages(pg, list[j], n), TakenList(pg, list, j, n), c) <==>
              Free(pg, list, c) && !In(list[j], n, c)
    ensures forall c: nat :: In(list[j], n, c) ==> Free(pg, list, c)
  {
    hide Ordered, Coalesced, TakenPages, TakenList, Cut, Covers;
    var qg, o := TakenPages(pg, list[j], n), TakenList(pg, list, j, n);
    TakenCut(pg, list, j, n);
    CutOrdered(list, Sizes(pg), j, n, o, Sizes(qg));
    CutApart(list, Sizes(pg), j, n, o, Sizes(qg));
    TakenSame(pg, list[j], n);
    forall c: nat
      ensures Free(qg, o, c) <==> Free(pg, list, c) && !In(list[j], n, c)
    {
      CutCovers(list, Sizes(pg), j, n, o, Sizes(qg), c);
    }
    forall c: nat | In(list[j], n, c)
      ensures Free(pg, list, c)
    {
      HoldsCovers(list, Sizes(pg), j, c);
    }
  }

  lemma TakenSame(pg: seq<Page>, p: nat, n: nat)
    requires p < |pg| && 0 < n && p + pg[p].property <= |pg|
    ensures SameOtherwise(pg, TakenPages(pg, p, n))
  {
  }

  lemma TakenHeads(pg: seq<Page>, list: seq<nat>, j: nat, n: nat)
    requires ListOk(pg, list) && j < |list| && list[j] < |pg| && 0 < n <= pg[list[j]].property
             && list[j] + pg[list[j]].property <= |pg|
    requires Heads(pg, Set(list))
    ensures Heads(TakenPages(pg, list[j], n), Set(TakenList(pg, list, j, n)))
  {
    hide Ordered, Coalesced;
    var qg, o, cur := TakenPages(pg, list[j], n), TakenList(pg, list, j, n), list[j];
    var gone := pg[cur].property == n;
    forall p: nat | p < |pg|
      ensures qg[p].head <==> p in Set(o)
    {
      if p in list && p != cur {
        var i :| 0 <= i < |list| && list[i] == p;
        Beside(list, Sizes(pg), j, i);
        assert o[if gone && i > j then i - 1 else i] == p;
      }
      if p in o && p != cur + n {
        var i :| 0 <= i < |o| && o[i] == p;
        var i0 := if gone && i >= j then i + 1 else i;
        assert list[i0] == p;
        if i0 != j {
          Beside(list, Sizes(pg), j, i0);
        }
      }
      if p == cur + n && !gone {
        assert o[j] == p;
      }
      if p == cur + n && gone && p in list {
        var i :| 0 <= i < |list| && list[i] == p;
        Beside(list, Sizes(pg), j, i);
      }
    }
  }

  lemma TakenTotal(pg: seq<Page>, list: seq<nat>, j: nat, n: nat)
    requires ListOk(pg, list) && j < |list| && list[j] < |pg| && 0 < n <= pg[list[j]].property
             && list[j] + pg[list[j]].property <= |pg|
    ensures Total(TakenList(pg, list, j, n), Sizes(TakenPages(pg, list[j], n))) == Total(list, Sizes(pg)) - n
  {
    hide Ordered, Coalesced, TakenPages, TakenList, Cut, Total;
    TakenCut(pg, list, j, n);
    CutTotal(list, Sizes(pg), j, n, TakenList(pg, list, j, n), Sizes(TakenPages(pg, list[j], n)));
  }

  // ----- freeing -----

  /** The merging loop of `default_free_pages`, having passed the first `i` blocks of the list. */
  ghost predicate Merging(pg: seq<Page>, list: seq<nat>, base: nat, i: nat) {
    && base < |pg| && i <= |list|
    && Loose(list, Sizes(pg), base)
    && (forall k: nat :: k < i ==> Aloof(list, Sizes(pg), base, k))
    && Heads(pg, Set(list) + {base})
  }

  /** The same free pages, the same number of them. */
  ghost predicate SamePool(pg: seq<Page>, list: seq<nat>, base: nat, qg: seq<Page>, o: seq<nat>, lo: nat) {
    && base < |pg| && lo < |qg|
    && SameOtherwise(pg, qg)
    && Total(o, Sizes(qg)) + qg[lo].property == Total(list, Sizes(pg)) + pg[base].property
    && (forall c: nat :: Held(o, Sizes(qg), lo, c) <==> Held(list, Sizes(pg), base, c))
  }

  function JoinedRight(pg: seq<Page>, base: nat, p: nat): seq<Page>
    requires base < |pg| && p < |pg|
  {
    var qg := pg[base := pg[base].(property := pg[base].property + pg[p].property)];
    qg[p := qg[p].(head := false)]
  }

  function JoinedLeft(pg: seq<Page>, base: nat, p: nat): seq<Page>
    requires base < |pg| && p < |pg|
  {
    var qg := pg[p := pg[p].(property := pg[p].property + pg[base].property)];
    qg[base := qg[base].(head := false)]
  }

  lemma RightAbsorbed(pg: seq<Page>, list: seq<nat>, base: nat, i: nat)
    requires Merging(pg, list, base, i) && i < |list| && list[i] < |pg| && base + pg[base].property == list[i]
    ensures Absorbed(list, Sizes(pg), base, i, RemoveAt(list, i), Sizes(JoinedRight(pg, base, list[i])), base)
    ensures Heads(JoinedRight(pg, base, list[i]), Set(RemoveAt(list, i)) + {base})
  {
    var p, qg := list[i], JoinedRight(pg, base, list[i]);
    RemoveSet(pg, list, base, i);
    assert Sizes(qg) == Sizes(pg)[base := pg[base].property + pg[p].property];
  }

  lemma LeftAbsorbed(pg: seq<Page>, list: seq<nat>, base: nat, i: nat)
    requires Merging(pg, list, base, i) && i < |list| && list[i] < |pg| && list[i] + pg[list[i]].property == base
    ensures Absorbed(list, Sizes(pg), base, i, RemoveAt(list, i), Sizes(JoinedLeft(pg, base, list[i])), list[i])
    ensures Heads(JoinedLeft(pg, base, list[i]), Set(RemoveAt(list, i)) + {list[i]})
  {
    var p, qg := list[i], JoinedLeft(pg, base, list[i]);
    RemoveSet(pg, list, base, i);
    assert Sizes(qg) == Sizes(pg)[p := pg[p].property + pg[base].property];
  }

  lemma RemoveSet(pg: seq<Page>, list: seq<nat>, base: nat, i: nat)
    requires Loose(list, Sizes(pg), base) && i < |list|
    ensures Set(RemoveAt(list, i)) == Set(list) - {list[i]} && base !in list
  {
    hide Ordered, Coalesced;
    var o := RemoveAt(list, i);
    forall k: nat | k < |list|
      ensures list[k] != base && (k != i ==> list[k] != list[i] && list[k] in o)
    {
      assert Off(list, Sizes(pg), base, k);
      SizeAt(list, Sizes(pg), k);
      if k != i {
        Differ(list, Sizes(pg), k, i);
        assert o[if k < i then k else k - 1] == list[k];
      }
    }
  }

  /** Joining a touching block to the loose one. */
  lemma AbsorbStep(pg: seq<Page>, list: seq<nat>, base: nat, i: nat, qg: seq<Page>, lo: nat)
    requires Merging(pg, list, base, i) && i < |list| && |qg| == |pg| && lo < |qg| && SameOtherwise(pg, qg)
    requires Absorbed(list, Sizes(pg), base, i, RemoveAt(list, i), Sizes(qg), lo)
    requires Heads(qg, Set(RemoveAt(list, i)) + {lo})
    ensures Merging(qg, RemoveAt(list, i), lo, i)
    ensures SamePool(pg, list, base, qg, RemoveAt(list, i), lo)
  {
    hide Loose, Absorbed, Aloof, Heads, Total, Held, SameOtherwise;
    var o, u, v := RemoveAt(list, i), Sizes(pg), Sizes(qg);
    AbsorbLoose(list, u, base, i, o, v, lo);
    AbsorbTotal(list, u, base, i, o, v, lo);
    forall k: nat | k < i
      ensures Aloof(o, v, lo, k)
    {
      AbsorbAloof(list, u, base, i, o, v, lo, k);
    }
    forall c: nat
      ensures Held(o, v, lo, c) <==> Held(list, u, base, c)
    {
      AbsorbHeld(list, u, base, i, o, v, lo, c);
    }
  }

  ghost predicate Busy(pg: seq<Page>, list: seq<nat>, b: nat, n: nat) {
    n > 0 && b + n <= |pg| && (forall c: nat :: In(b, n, c) ==> !pg[c].reserved && !Free(pg, list, c))
  }

  /** The records of the freed pages, reset. */
  ghost predicate Reset(pg: seq<Page>, qg: seq<Page>, b: nat, n: nat) {
    && |pg| == |qg|
    && (forall p: nat :: p < |pg| ==> qg[p] == if In(b, n, p) then Page(false, false, pg[p].property, 0) else pg[p])
  }

  lemma StartOff(pg: seq<Page>, list: seq<nat>, b: nat, n: nat, i: nat)
    requires ListOk(pg, list) && Busy(pg, list, b, n) && i < |list|
    ensures list[i] < |pg| && list[i] != b && (list[i] + pg[list[i]].property <= b || b + n <= list[i])
  {
    hide Ordered, Coalesced;
    var u := Sizes(pg);
    Within(pg, list, i);
    assert In(b, n, b);
    if In(b, n, list[i]) {
      HoldsCovers(list, u, i, list[i]);
    } else if list[i] < b < list[i] + pg[list[i]].property {
      HoldsCovers(list, u, i, b);
    }
  }

  /** Entering the merging loop. */
  lemma StartMerging(pg: seq<Page>, list: seq<nat>, b: nat, n: nat, rg: seq<Page>, qg: seq<Page>)
    requires ListOk(pg, list) && Heads(pg, Set(list)) && Busy(pg, list, b, n)
    requires Reset(pg, rg, b, n) && qg == rg[b := rg[b].(property := n, head := true)]
    ensures Merging(qg, list, b, 0)
    ensures Total(list, Sizes(qg)) == Total(list, Sizes(pg)) && qg[b].property == n
    ensures forall c: nat :: Held(list, Sizes(qg), b, c) <==> Free(pg, list, c) || In(b, n, c)
  {
    hide Ordered, Coalesced, Total;
    var u, v := Sizes(pg), Sizes(qg);
    forall i: nat | i < |list|
      ensures SameSize(list, u, v, i) && Off(list, v, b, i)
    {
      StartOff(pg, list, b, n, i);
    }
    SameList(list, u, v);
    TotalSame(list, u, v);
    StartHeads(pg, list, b, n, rg, qg);
  }

  lemma StartHeads(pg: seq<Page>, list: seq<nat>, b: nat, n: nat, rg: seq<Page>, qg: seq<Page>)
    requires ListOk(pg, list) && Heads(pg, Set(list)) && Busy(pg, list, b, n)
    requires Reset(pg, rg, b, n) && qg == rg[b := rg[b].(property := n, head := true)]
    ensures Heads(qg, Set(list) + {b})
  {
    hide Ordered, Coalesced;
    forall p: nat | p < |pg| && In(b, n, p)
      ensures p !in list
    {
      if p in list {
        var i :| 0 <= i < |list| && list[i] == p;
        Within(pg, list, i);
        HoldsCovers(list, Sizes(pg), i, p);
      }
    }
  }

  /** Leaving the merging loop: the loose block is put on the list where its address says. */
  lemma Finish(pg: seq<Page>, list: seq<nat>, base: nat, k: nat)
    requires Merging(pg, list, base, |list|) && k <= |list|
    requires forall i: nat :: i < k ==> list[i] < base + pg[base].property
    requires k < |list| ==> base + pg[base].property <= list[k]
    ensures var o := InsertAt(list, k, base);
            && Ordered(o, Sizes(pg)) && Coalesced(o, Sizes(pg))
            && Heads(pg, Set(o)) && Total(o, Sizes(pg)) == Total(list, Sizes(pg)) + pg[base].property
            && (forall c: nat :: Free(pg, o, c) <==> Held(list, Sizes(pg), base, c))
  {
    hide Ordered, Coalesced, Total, Covers;
    var o, u := InsertAt(list, k, base), Sizes(pg);
    InsertLoose(list, u, base, k);
    TotalInsert(list, u, k, base);
    forall c: nat
      ensures Covers(o, u, c) <==> Held(list, u, base, c)
    {
      CoversInsert(list, u, k, base, u[base], c);
      assert u[base := u[base]] == u;
    }
    forall p: nat
      ensures p in o <==> p in list || p == base
    {
      InsertHas(list, k, base, p);
    }
  }

  lemma InsertHas(list: seq<nat>, k: nat, b: nat, p: nat)
    requires k <= |list|
    ensures p in InsertAt(list, k, b) <==> p in list || p == b
  {
    var o := InsertAt(list, k, b);
    if p in list {
      var i :| 0 <= i < |list| && list[i] == p;
      assert o[if i < k then i else i + 1] == p;
    }
    if p in o && p != b {
      var i :| 0 <= i < |o| && o[i] == p;
      assert list[if i < k then i else i - 1] == p;
    }
    assert o[k] == b;
  }
}
