/**
 The frames a copied address space asks for, in the order of the requests, and what becomes of the
 copy when only some number of frames is free.
 */
module ForkFrames {
  import opened AddressSpace

  /** Outcomes; a panic is the failed assertion that a data page could be allocated. */
  datatype Status = Ok | NoMem | Panic

  datatype Ask = ForDir | ForTable | ForData

  /** One page asks for its table, unless the copy has it by now, and then for itself. */
  function PageAsks(have: set<nat>, v: nat): seq<Ask> {
    if TableOf(v) in have then [ForData] else [ForTable, ForData]
  }

  /** The requests for the entries of pages `v..end`, when the tables `have` are there. */
  function RangeAsks(mapped: set<nat>, have: set<nat>, v: nat, end: nat): seq<Ask>
    decreases end - v
  {
    if v >= end then []
    else if v in mapped then PageAsks(have, v) + RangeAsks(mapped, have + {TableOf(v)}, v + 1, end)
    else RangeAsks(mapped, have, v + 1, end)
  }

  /** The tables there are after those requests. */
  function RangeHave(mapped: set<nat>, have: set<nat>, v: nat, end: nat): set<nat>
    decreases end - v
  {
    if v >= end then have
    else if v in mapped then RangeHave(mapped, have + {TableOf(v)}, v + 1, end)
    else RangeHave(mapped, have, v + 1, end)
  }

  /** The requests for the first `n` areas, taken last first. */
  function AreaAsks(mapped: set<nat>, vmas: seq<Vma>, n: nat, have: set<nat>): seq<Ask>
    requires n <= |vmas|
  {
    if n == 0 then []
    else
      var a := vmas[n - 1];
      RangeAsks(mapped, have, a.start, a.end) + AreaAsks(mapped, vmas, n - 1, RangeHave(mapped, have, a.start, a.end))
  }

  /** The tables there are after those. */
  function AreaHave(mapped: set<nat>, vmas: seq<Vma>, n: nat, have: set<nat>): set<nat>
    requires n <= |vmas|
  {
    if n == 0 then have
    else AreaHave(mapped, vmas, n - 1, RangeHave(mapped, have, vmas[n - 1].start, vmas[n - 1].end))
  }

  /** Everything the copy of a space asks for: its directory first. */
  function CopyAsks(mapped: set<nat>, vmas: seq<Vma>): seq<Ask> {
    [ForDir] + AreaAsks(mapped, vmas, |vmas|, {})
  }

  /** The first request that cannot be met decides. */
  function Fate(asks: seq<Ask>, free: nat): Status {
    if |asks| <= free then Ok else if asks[free] == ForData then Panic else NoMem
  }

  lemma FateSplit(a: seq<Ask>, b: seq<Ask>, free: nat)
    ensures |a| <= free ==> Fate(a + b, free) == Fate(b, free - |a|)
    ensures |a| > free ==> Fate(a + b, free) == Fate(a, free)
  {
  }

  /** The requests of `start..end` are `asked` followed by those of `v..end`. */
  ghost predicate Owed(mapped: set<nat>, have0: set<nat>, start: nat, end: nat, asked: seq<Ask>, have: set<nat>,
                       v: nat) {
    && RangeAsks(mapped, have0, start, end) == asked + RangeAsks(mapped, have, v, end)
    && RangeHave(mapped, have0, start, end) == RangeHave(mapped, have, v, end)
  }

  lemma OwedPage(mapped: set<nat>, have0: set<nat>, start: nat, end: nat, asked: seq<Ask>, have: set<nat>, v: nat)
    requires Owed(mapped, have0, start, end, asked, have, v) && v in mapped && v < end
    ensures Owed(mapped, have0, start, end, asked + PageAsks(have, v), have + {TableOf(v)}, v + 1)
  {
    hide PageAsks, TableOf;
    var more := RangeAsks(mapped, have + {TableOf(v)}, v + 1, end);
    assert asked + (PageAsks(have, v) + more) == (asked + PageAsks(have, v)) + more;
  }

  /** A page whose request fails decides the outcome. */
  lemma OwedFails(mapped: set<nat>, have0: set<nat>, start: nat, end: nat, asked: seq<Ask>, have: set<nat>, v: nat,
                  free: nat)
    requires Owed(mapped, have0, start, end, asked, have, v) && v in mapped && v < end && |asked| <= free
    requires Fate(PageAsks(have, v), free - |asked|) != Ok
    ensures Fate(RangeAsks(mapped, have0, start, end), free) == Fate(PageAsks(have, v), free - |asked|)
  {
    OwedPage(mapped, have0, start, end, asked, have, v);
    hide Fate, PageAsks, RangeAsks, RangeHave, TableOf;
    var more := RangeAsks(mapped, have + {TableOf(v)}, v + 1, end);
    FateSplit(asked, PageAsks(have, v), free);
    FateSplit(asked + PageAsks(have, v), more, free);
    FateIsShort(PageAsks(have, v), free - |asked|);
  }

  lemma FateIsShort(asks: seq<Ask>, free: nat)
    ensures Fate(asks, free) != Ok <==> |asks| > free
  {
  }

  lemma {:induction false} OwedSkip(mapped: set<nat>, have0: set<nat>, start: nat, end: nat, asked: seq<Ask>,
                                    have: set<nat>, v: nat, m: nat)
    requires Owed(mapped, have0, start, end, asked, have, v) && v <= m <= end && forall x: nat :: v <= x < m ==>
               x !in mapped
    ensures Owed(mapped, have0, start, end, asked, have, m)
    decreases m - v
  {
    if v < m {
      assert v !in mapped;
      OwedSkip(mapped, have0, start, end, asked, have, v + 1, m);
    }
  }

  // ----- how many frames that is -----

  function PagesIn(mapped: set<nat>, v: nat, end: nat): set<nat> {
    set x | x in mapped && v <= x < end
  }

  function TablesOf(pages: set<nat>): set<nat> {
    set x | x in pages :: TableOf(x)
  }

  lemma TablesJoin(a: set<nat>, b: set<nat>)
    ensures TablesOf(a + b) == TablesOf(a) + TablesOf(b)
  {
    hide TableOf;
    assert forall x :: x in a + b <==> x in a || x in b;
  }

  lemma NextPage(mapped: set<nat>, have: set<nat>, v: nat, end: nat)
    requires v < end
    ensures v !in mapped ==> PagesIn(mapped, v, end) == PagesIn(mapped, v + 1, end)
    ensures v in mapped ==> |PagesIn(mapped, v, end)| == |PagesIn(mapped, v + 1, end)| + 1
    ensures v in mapped ==>
              have + TablesOf(PagesIn(mapped, v, end)) == have + {TableOf(v)} + TablesOf(PagesIn(mapped, v + 1, end))
    ensures |have + {TableOf(v)}| == |have| + (if TableOf(v) in have then 0 else 1)
  {
    hide TableOf;
    var pages, rest := PagesIn(mapped, v, end), PagesIn(mapped, v + 1, end);
    if v in mapped {
      assert pages == {v} + rest;
      TablesJoin({v}, rest);
      assert TablesOf({v}) == {TableOf(v)};
    }
    assert TableOf(v) in have ==> have + {TableOf(v)} == have;
  }

  lemma {:induction false} RangeCount(mapped: set<nat>, have: set<nat>, v: nat, end: nat)
    ensures var pages := PagesIn(mapped, v, end);
            && RangeHave(mapped, have, v, end) == have + TablesOf(pages)
            && |RangeAsks(mapped, have, v, end)| == |pages| + |have + TablesOf(pages)| - |have|
    decreases end - v
  {
    hide TableOf;
    if v >= end {
      assert PagesIn(mapped, v, end) == {};
      assert have + TablesOf({}) == have;
    } else {
      NextPage(mapped, have, v, end);
      hide PagesIn, TablesOf;
      if v in mapped {
        RangeCount(mapped, have + {TableOf(v)}, v + 1, end);
      } else {
        RangeCount(mapped, have, v + 1, end);
      }
    }
  }

  /** The entries in the first `n` areas. */
  function PagesOf(mapped: set<nat>, vmas: seq<Vma>, n: nat): set<nat>
    requires n <= |vmas|
  {
    if n == 0 then {} else PagesIn(mapped, vmas[n - 1].start, vmas[n - 1].end) + PagesOf(mapped, vmas, n - 1)
  }

  ghost predicate InOrder(vmas: seq<Vma>) {
    forall i: nat, j: nat :: i < j < |vmas| ==> vmas[i].end <= vmas[j].start
  }

  lemma {:induction false} PagesBefore(mapped: set<nat>, vmas: seq<Vma>, n: nat, hi: nat)
    requires n <= |vmas| && forall i: nat :: i < n ==> vmas[i].end <= hi
    ensures forall v: nat :: v in PagesOf(mapped, vmas, n) ==> v < hi && v in mapped
  {
    if n > 0 {
      assert vmas[n - 1].end <= hi;
      PagesBefore(mapped, vmas, n - 1, hi);
    }
  }

  /** What one area adds to the pages of the areas before it. */
  lemma NextArea(mapped: set<nat>, vmas: seq<Vma>, n: nat, have: set<nat>)
    requires 0 < n <= |vmas| && InOrder(vmas)
    ensures var here, rest := PagesIn(mapped, vmas[n - 1].start, vmas[n - 1].end), PagesOf(mapped, vmas, n - 1);
            && |PagesOf(mapped, vmas, n)| == |here| + |rest|
            && have + TablesOf(PagesOf(mapped, vmas, n)) == have + TablesOf(here) + TablesOf(rest)
  {
    var a := vmas[n - 1];
    var here, rest := PagesIn(mapped, a.start, a.end), PagesOf(mapped, vmas, n - 1);
    forall i: nat | i < n - 1
      ensures vmas[i].end <= a.start
    {
    }
    PagesBefore(mapped, vmas, n - 1, a.start);
    assert here !! rest;
    TablesJoin(here, rest);
  }

  lemma {:induction false} AreaCount(mapped: set<nat>, vmas: seq<Vma>, n: nat, have: set<nat>)
    requires n <= |vmas| && InOrder(vmas)
    ensures AreaHave(mapped, vmas, n, have) == have + TablesOf(PagesOf(mapped, vmas, n))
    ensures |AreaAsks(mapped, vmas, n, have)| + |have|
         == |PagesOf(mapped, vmas, n)| + |have + TablesOf(PagesOf(mapped, vmas, n))|
  {
    hide RangeAsks, RangeHave, TablesOf, PagesIn, InOrder;
    if n == 0 {
      NoTables(have);
    } else {
      hide PagesOf;
      var a := vmas[n - 1];
      var next := RangeHave(mapped, have, a.start, a.end);
      NextArea(mapped, vmas, n, have);
      RangeCount(mapped, have, a.start, a.end);
      AreaCount(mapped, vmas, n - 1, next);
    }
  }

  lemma NoTables(have: set<nat>)
    ensures have + TablesOf({}) == have
  {
  }
}
