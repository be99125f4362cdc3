/** Copying an address space for fork and tearing one down at exit, in place. */
module ForkExit {
  import opened AddressSpace
  import opened ForkFrames
  import opened Options

  /** Bit 0, present, bit 1, writable, and bit 2, user, are those of `perm`, and no other bit is set. */
  predicate SameUserBits(perm: nat, q: nat) {
    q < 8 && q % 2 == perm % 2 && q / 2 % 2 == perm / 2 % 2 && q / 4 % 2 == perm / 4 % 2
  }

  /** The user bits of an entry. */
  function UserBits(perm: nat): (q: nat)
    ensures SameUserBits(perm, q)
  {
    LowBits(perm / 8, perm % 8);
    perm % 8
  }

  lemma LowBits(k: nat, r: nat)
    requires r < 8
    ensures SameUserBits(8 * k + r, r)
  {
    Halve(4 * k, r);
    Halve(2 * k, r / 2);
    Halve(k, r / 4);
    QuarterIsHalfTwice(8 * k + r);
    QuarterIsHalfTwice(r);
  }

  lemma Halve(k: nat, r: nat)
    ensures (2 * k + r) / 2 == k + r / 2 && (2 * k + r) % 2 == r % 2
  {
  }

  lemma QuarterIsHalfTwice(n: nat)
    ensures n / 4 == n / 2 / 2
  {
  }

  /** Three bits make the number. */
  lemma ThreeBits(q: nat)
    requires q < 8
    ensures q == q % 2 + 2 * (q / 2 % 2) + 4 * (q / 4 % 2)
  {
  }

  lemma UserBitsOnly(perm: nat, q: nat)
    requires SameUserBits(perm, q)
    ensures q == UserBits(perm)
  {
    ThreeBits(q);
    ThreeBits(UserBits(perm));
  }

  /** The present bit set, the others as they are. */
  function Present(perm: nat): (q: nat)
    ensures q % 2 == 1 && q / 2 == perm / 2
  {
    if perm % 2 == 1 then perm else perm + 1
  }

  predicate InVma(a: Vma, v: nat) { a.start <= v < a.end }

  predicate InSome(vmas: seq<Vma>, v: nat) {
    exists i: nat :: i < |vmas| && InVma(vmas[i], v)
  }

  predicate Reaches(a: Vma, d: nat) {
    a.start < a.end && TableOf(a.start) <= d <= TableOf(a.end - 1)
  }

  predicate SomeReaches(vmas: seq<Vma>, d: nat) {
    exists i: nat :: i < |vmas| && Reaches(vmas[i], d)
  }

  ghost predicate VmasOk(vmas: seq<Vma>) {
    && (forall i: nat :: i < |vmas| ==> vmas[i].start < vmas[i].end)
    && (forall i: nat, j: nat :: i < j < |vmas| ==> vmas[i].end <= vmas[j].start)
  }

  /** Entries lie in the areas of the space, and tables serve some area. */
  ghost predicate Covered(s: Space) {
    && VmasOk(s.vmas)
    && (forall v: nat :: v in s.ptes ==> InSome(s.vmas, v))
    && (forall d: nat :: d in s.tables ==> SomeReaches(s.vmas, d))
  }

  /** Frames in use are determined by the address spaces: nothing leaks and nothing is freed too early. */
  lemma UseDetermined(w: World, u: World)
    requires WorldOk(w) && WorldOk(u) && w.spaces == u.spaces && w.use.Keys == u.use.Keys
    ensures w.use == u.use
  {
    hide WorldOk;
    forall f: nat | f in w.use
      ensures w.use[f] == u.use[f]
    {
      UseImplied(w, u, f);
      UseImplied(u, w, f);
    }
  }

  lemma UseImplied(w: World, u: World, f: nat)
    requires WorldOk(w) && WorldOk(u) && w.spaces == u.spaces && f in w.use && f in u.use
    ensures w.use[f] != Free ==> u.use[f] == w.use[f]
  {
    hide WorldOk;
    FrameAt(w, f);
    match w.use[f] {
      case Free =>
      case Dir(id) => SpaceAt(u, id);
      case Table(id, d) => TableAt(u, id, d);
      case Data =>
        var x :| x in w.names[f];
        assert NamedAt(w, f, x.0, x.1);
        PteAt(u, x.0, x.1);
    }
  }

  /** Page `v` of one space is a private copy of page `v` of the other. */
  ghost predicate Copied(w: World, from: nat, to: nat, v: nat) {
    && from in w.spaces && to in w.spaces
    && (v in w.spaces[from].ptes <==> v in w.spaces[to].ptes)
    && (v in w.spaces[from].ptes ==>
          && var p, q := w.spaces[from].ptes[v], w.spaces[to].ptes[v];
          && SameUserBits(p.perm, q.perm)
          && p.frame in w.data && q.frame in w.data && w.data[q.frame] == w.data[p.frame]
          && q.frame in w.names && w.names[q.frame] == {(to, v)})
  }

  /** A private page is on no frame of another space. */
  lemma CopyDisjoint(w: World, from: nat, to: nat, v: nat, id: nat, x: nat)
    requires WorldOk(w) && Copied(w, from, to, v) && v in w.spaces[to].ptes && id != to && id in w.spaces
             && x in w.spaces[id].ptes
    ensures w.spaces[id].ptes[x].frame != w.spaces[to].ptes[v].frame
  {
    hide WorldOk;
    PteAt(w, id, x);
  }

  ghost predicate FreeOk(free: set<nat>, use: map<nat, Use>, loose: set<nat>) {
    && (forall f: nat :: f in loose ==> f in use && use[f] == Free)
    && (forall f: nat :: f in free <==> f in use && use[f] == Free && f !in loose)
  }

  predicate Entry(spaces: map<nat, Space>, id: nat, v: nat) {
    id in spaces && v in spaces[id].ptes
  }

  /** No frame is named by two entries. */
  ghost predicate Unshared(spaces: map<nat, Space>) {
    forall id: nat, v: nat, j: nat, x: nat ::
      Entry(spaces, id, v) && Entry(spaces, j, x) && spaces[id].ptes[v].frame == spaces[j].ptes[x].frame ==>
            id == j && v == x
  }

  lemma TwoNames(names: set<(nat, nat)>, a: (nat, nat), b: (nat, nat))
    requires a in names && b in names && a != b
    ensures |names| > 1
  {
    assert |names - {a}| == |names| - 1 && b in names - {a};
  }

  /** No other entry names the frame of this one. */
  ghost predicate SoleEntry(spaces: map<nat, Space>, id: nat, v: nat)
    requires Entry(spaces, id, v)
  {
    forall j: nat, x: nat :: Entry(spaces, j, x) && spaces[j].ptes[x].frame == spaces[id].ptes[v].frame ==>
      j == id && x == v
  }

  /** The reference count is one exactly for the only entry of a frame. */
  lemma SoleName(w: World, id: nat, v: nat)
    requires WorldOk(w) && Entry(w.spaces, id, v)
    ensures var f := w.spaces[id].ptes[v].frame;
            f in w.ref && w.ref[f] > 0 && (w.ref[f] == 1 <==> SoleEntry(w.spaces, id, v))
  {
    hide WorldOk;
    UnmapFacts(w, id, v);
    var f := w.spaces[id].ptes[v].frame;
    if SoleEntry(w.spaces, id, v) {
      forall e | e in w.names[f]
        ensures e == (id, v)
      {
        assert NamedAt(w, f, e.0, e.1);
        assert Entry(w.spaces, e.0, e.1);
      }
      assert w.names[f] == {(id, v)};
    } else {
      var j: nat, x: nat :| Entry(w.spaces, j, x) && w.spaces[j].ptes[x].frame == f && !(j == id && x == v);
      PteAt(w, j, x);
      TwoNames(w.names[f], (id, v), (j, x));
    }
  }

  lemma UnsharedSole(spaces: map<nat, Space>, id: nat, v: nat)
    requires Unshared(spaces) && Entry(spaces, id, v)
    ensures SoleEntry(spaces, id, v)
  {
  }

  /** A new frame displaces whatever is there. */
  lemma NewDisplaces(w: World, id: nat, v: nat, f: nat)
    requires WorldOk(w) && Unshared(w.spaces) && f in w.use && w.use[f] == Free && id in w.spaces
    ensures Displaces(w.spaces, id, v, f) <==> v in w.spaces[id].ptes
  {
    hide WorldOk, Unshared, SoleEntry;
    if v in w.spaces[id].ptes {
      UnsharedSole(w.spaces, id, v);
      PteAt(w, id, v);
    }
  }

  /** Mapping frame `f` at `v` takes the last entry away from another frame. */
  ghost predicate Displaces(spaces: map<nat, Space>, id: nat, v: nat, f: nat) {
    Entry(spaces, id, v) && spaces[id].ptes[v].frame != f && SoleEntry(spaces, id, v)
  }

  /** A frame in use stays in use as long as its entries are there. */
  lemma StillPlaceable(w: World, u: World, f: nat)
    requires WorldOk(w) && WorldOk(u) && f in w.use && f in u.use && w.use[f] == Data
    requires forall j: nat, x: nat :: NamedAt(w, f, j, x) ==> NamedAt(u, f, j, x)
    ensures u.use[f] == Data
  {
    hide WorldOk;
    var j, x := SomeEntry(w, f);
    assert NamedAt(u, f, j, x);
    PteAt(u, j, x);
  }

  /** Entries that stay as they are stay alone. */
  lemma SameSole(a: map<nat, Space>, b: map<nat, Space>, id: nat, v: nat)
    requires Entry(a, id, v) && forall j: nat, x: nat :: Entry(b, j, x) ==> Entry(a, j, x)
    requires forall j: nat, x: nat :: Entry(a, j, x) ==> Entry(b, j, x) && b[j].ptes[x] == a[j].ptes[x]
    ensures Entry(b, id, v) && (SoleEntry(a, id, v) <==> SoleEntry(b, id, v))
  {
  }

  lemma FewerEntries(a: map<nat, Space>, b: map<nat, Space>)
    requires Unshared(a)
    requires forall id: nat, v: nat :: Entry(b, id, v) ==> Entry(a, id, v) && a[id].ptes[v] == b[id].ptes[v]
    ensures Unshared(b)
  {
  }

  /** A new table changes nothing about the entries. */
  lemma Tabled(w: World, u: World, id: nat, v: nat, f: nat)
    requires WorldOk(w) && WorldOk(u) && id in w.spaces && id in u.spaces && f in w.use && f in u.use
    requires u.spaces == w.spaces[id := w.spaces[id].(tables := u.spaces[id].tables)]
    ensures Unshared(w.spaces) ==> Unshared(u.spaces)
    ensures Displaces(w.spaces, id, v, f) <==> Displaces(u.spaces, id, v, f)
    ensures w.use[f] == Data ==> u.use[f] == Data
  {
    hide WorldOk, Unshared, SoleEntry;
    if Unshared(w.spaces) {
      FewerEntries(w.spaces, u.spaces);
    }
    if Entry(w.spaces, id, v) {
      SameSole(w.spaces, u.spaces, id, v);
    }
    if w.use[f] == Data {
      StillPlaceable(w, u, f);
    }
  }

  /** A frame that nothing named gets one name. */
  lemma FreshEntry(w: World, id: nat, v: nat, f: nat, perm: nat)
    requires WorldOk(w) && Unshared(w.spaces) && id in w.spaces && f in w.use && w.use[f] == Free
    ensures Unshared(w.spaces[id := w.spaces[id].(ptes := w.spaces[id].ptes[v := Pte(f, perm)])])
  {
    hide WorldOk;
    var u := w.spaces[id := w.spaces[id].(ptes := w.spaces[id].ptes[v := Pte(f, perm)])];
    forall j: nat, x: nat | Entry(u, j, x) && (j, x) != (id, v)
      ensures Entry(w.spaces, j, x) && u[j].ptes[x] == w.spaces[j].ptes[x] && u[j].ptes[x].frame != f
    {
      PteAt(w, j, x);
    }
  }

  lemma FreePlaced(free: set<nat>, use: map<nat, Use>, f: nat)
    requires FreeOk(free, use, {f})
    ensures FreeOk(free, use[f := Data], {})
  {
  }

  lemma GiveBack(free: set<nat>, use: map<nat, Use>, f: nat)
    requires FreeOk(free, use, {f})
    ensures FreeOk(free + {f}, use, {})
  {
  }

  lemma StoreKeeps(w: World, id: nat, v: nat, page: Page)
    requires WorldOk(w) && Entry(w.spaces, id, v)
    ensures WorldOk(w.(data := w.data[w.spaces[id].ptes[v].frame := page]))
  {
    var u := w.(data := w.data[w.spaces[id].ptes[v].frame := page]);
    forall g: nat | g in u.use
      ensures FrameOk(u, g)
    {
      hide WorldOk;
      FrameAt(w, g);
      if u.use[g] == Data {
        SameNames(w, u, g);
      }
    }
    forall j: nat | j in u.spaces
      ensures SpaceOk(u, j)
    {
      hide WorldOk;
      SpaceAt(w, j);
      forall e: nat | e in u.spaces[j].tables
        ensures TableOk(u, j, e)
      {
        assert TableOk(w, j, e);
      }
      forall x: nat | x in u.spaces[j].ptes
        ensures PteOk(u, j, x)
      {
        assert PteOk(w, j, x);
      }
    }
  }

  predicate Within(lo: nat, hi: nat, v: nat) { lo <= v < hi }

  function SansPages(ptes: map<nat, Pte>, lo: nat, hi: nat): map<nat, Pte> {
    map v | v in ptes && !Within(lo, hi, v) :: ptes[v]
  }

  predicate TableWithin(lo: nat, hi: nat, d: nat) { lo <= d < hi }

  function SansTables(tables: map<nat, nat>, lo: nat, hi: nat): map<nat, nat> {
    map d | d in tables && !TableWithin(lo, hi, d) :: tables[d]
  }

  function Min(a: nat, b: nat): nat { if a < b then a else b }

  /** The next page whose table differs. */
  function NextTable(v: nat): (n: nat)
    ensures n > v && forall x: nat :: v <= x < n ==> TableOf(x) == TableOf(v)
  {
    (v + TABLE_PAGES) / TABLE_PAGES * TABLE_PAGES
  }

  /** A table that is not there serves no entry. */
  lemma SkipTable(w: World, id: nat, ptes: map<nat, Pte>, lo: nat, v: nat, m: nat)
    requires WorldOk(w) && id in w.spaces && w.spaces[id].ptes == SansPages(ptes, lo, v) && lo <= v
             && TableOf(v) !in w.spaces[id].tables
    requires v <= m <= NextTable(v)
    ensures w.spaces[id].ptes == SansPages(ptes, lo, m)
  {
    hide WorldOk;
    forall x: nat | v <= x < NextTable(v)
      ensures x !in ptes
    {
      if x in ptes {
        assert x in w.spaces[id].ptes;
        PteAt(w, id, x);
      }
    }
  }

  lemma SansNone(ptes: map<nat, Pte>, lo: nat)
    ensures SansPages(ptes, lo, lo) == ptes
  {
  }

  lemma SansNext(ptes: map<nat, Pte>, lo: nat, v: nat)
    requires lo <= v
    ensures SansPages(ptes, lo, v + 1) == SansPages(ptes, lo, v) - {v}
    ensures v !in SansPages(ptes, lo, v) ==> SansPages(ptes, lo, v + 1) == SansPages(ptes, lo, v)
  {
  }

  class Memory {
    var free: set<nat>
    var ref: map<nat, nat>
    var data: map<nat, Page>
    var spaces: map<nat, Space>
    ghost var use: map<nat, Use>
    ghost var names: map<nat, set<(nat, nat)>>

    ghost function W(): World
      reads this
    {
      World(ref, data, spaces, use, names)
    }

    ghost predicate Valid(loose: set<nat>)
      reads this
    {
      WorldOk(W()) && FreeOk(free, use, loose)
    }

    /** All of memory free, and no address space. */
    constructor (frames: set<nat>)
      ensures Valid({}) && free == frames && spaces == map[] && use.Keys == frames
    {
      free := frames;
      ref := map f | f in frames :: 0;
      data := map[];
      spaces := map[];
      use := map f | f in frames :: Free;
      names := map[];
    }

    method AllocPage(ghost loose: set<nat>) returns (r: Option<nat>)
      requires Valid(loose)
      modifies this`free
      ensures r.None? <==> old(free) == {}
      ensures r.None? ==> Valid(loose) && free == old(free)
      ensures r.Some? ==> Valid(loose + {r.value}) && r.value !in loose && r.value in use && use[r.value] == Free
      ensures r.Some? ==> free == old(free) - {r.value} && r.value in old(free) && |free| == |old(free)| - 1
    {
      if free == {} {
        return None;
      }
      var f :| f in free;
      free := free - {f};
      return Some(f);
    }

    /** `page_remove_pte` on a present entry. */
    method PageRemovePte(id: nat, v: nat, ghost loose: set<nat>)
      requires Valid(loose) && id in spaces && v in spaces[id].ptes
      modifies this
      ensures Valid(loose) && data == old(data) && use.Keys == old(use.Keys)
      ensures spaces == old(spaces)[id := old(spaces)[id].(ptes := old(spaces)[id].ptes - {v})]
      ensures Entry(old(spaces), id, v) && (old(Unshared(spaces)) ==> Unshared(spaces) && SoleEntry(old(spaces), id, v))
      ensures |free| == |old(free)| + if SoleEntry(old(spaces), id, v) then 1 else 0
      ensures forall f: nat :: f in loose ==> f in use && use[f] == Free
    {
      hide WorldOk, Unshared, SoleEntry;
      ghost var before := spaces;
      UnmapFacts(W(), id, v);
      var f := spaces[id].ptes[v].frame;
      UnmapKeeps(W(), id, v);
      ghost var w := W();
      ref := ref[f := ref[f] - 1];
      if ref[f] == 0 {
        free := free + {f};
      }
      spaces := spaces[id := spaces[id].(ptes := spaces[id].ptes - {v})];
      use, names := if w.ref[f] == 1 then use[f := Free] else use, names[f := names[f] - {(id, v)}];
      assert W() == Unmapped(w, id, v);
      SoleName(w, id, v);
      if Unshared(before) {
        FewerEntries(before, spaces);
        UnsharedSole(before, id, v);
      }
    }

    /** The entry at `v`, if there is one, goes. */
    method RemoveAt(id: nat, v: nat)
      requires Valid({}) && id in spaces
      modifies this
      ensures Valid({}) && data == old(data) && use.Keys == old(use.Keys)
      ensures id in old(spaces) && id in spaces
              && spaces == old(spaces)[id := old(spaces)[id].(ptes := old(spaces)[id].ptes - {v})]
      ensures old(Unshared(spaces)) ==>
                Unshared(spaces) && |free| + |spaces[id].ptes| == |old(free)| + |old(spaces)[id].ptes|
    {
      hide WorldOk, FreeOk, Unshared, SoleEntry;
      if v in spaces[id].ptes {
        PageRemovePte(id, v, {});
      } else {
        assert spaces[id].ptes - {v} == spaces[id].ptes;
      }
    }

    method UnmapRange(id: nat, start: nat, end: nat)
      requires Valid({}) && id in spaces && start < end
      modifies this
      ensures Valid({}) && data == old(data) && use.Keys == old(use.Keys)
      ensures id in old(spaces) && spaces == old(spaces)[id :=
                old(spaces)[id].(ptes := SansPages(old(spaces)[id].ptes, start, end))]
      ensures old(Unshared(spaces)) ==>
                Unshared(spaces) && |free| + |spaces[id].ptes| == |old(free)| + |old(spaces)[id].ptes|
    {
      hide WorldOk, FreeOk, SansPages, NextTable, TableOf, Unshared, SoleEntry;
      ghost var s, sole, n := spaces[id], Unshared(spaces), |free| + |spaces[id].ptes|;
      var v := start;
      SansNone(s.ptes, start);
      assert spaces == spaces[id := s.(ptes := s.ptes)];
      while v < end
        invariant start <= v && Valid({}) && data == old(data) && use.Keys == old(use.Keys)
        invariant id in spaces && spaces == old(spaces)[id := s.(ptes := SansPages(s.ptes, start, Min(v, end)))]
        invariant sole ==> Unshared(spaces) && |free| + |spaces[id].ptes| == n
      {
        if TableOf(v) !in spaces[id].tables {
          SkipTable(W(), id, s.ptes, start, v, Min(NextTable(v), end));
          v := NextTable(v);
        } else {
          RemoveAt(id, v);
          SansNext(s.ptes, start, v);
          v := v + 1;
        }
      }
    }

    method ExitRange(id: nat, start: nat, end: nat)
      requires Valid({}) && id in spaces && start < end && spaces[id].ptes == map[]
      modifies this
      ensures Valid({}) && data == old(data) && use.Keys == old(use.Keys)
      ensures id in old(spaces) && spaces == old(spaces)[id :=
                old(spaces)[id].(tables := SansTables(old(spaces)[id].tables, TableOf(start), TableOf(end - 1) + 1))]
      ensures |free| + |spaces[id].tables| == |old(free)| + |old(spaces)[id].tables|
    {
      hide WorldOk, FreeOk, SansTables, TableOf;
      ghost var s := spaces[id];
      var d := TableOf(start);
      TablesNone(s.tables, d);
      assert spaces == spaces[id := s.(tables := s.tables)];
      TableOrder(start, end - 1);
      while d * TABLE_PAGES < end
        invariant TableOf(start) <= d <= TableOf(end - 1) + 1 && Valid({}) && data == old(data)
                  && use.Keys == old(use.Keys)
        invariant id in spaces && spaces == old(spaces)[id := s.(tables := SansTables(s.tables, TableOf(start), d))]
        invariant |free| + |spaces[id].tables| == |old(free)| + |s.tables|
        decreases TableOf(end - 1) + 1 - d
      {
        TableEnds(end, d);
        if d in spaces[id].tables {
          FreeTable(id, d);
        }
        TablesNext(s.tables, TableOf(start), d);
        d := d + 1;
      }
      TableEnds(end, d);
    }

    method FreeTable(id: nat, d: nat)
      requires Valid({}) && id in spaces && d in spaces[id].tables && spaces[id].ptes == map[]
      modifies this`free, this`ref, this`spaces, this`use
      ensures Valid({}) && use.Keys == old(use.Keys)
      ensures id in old(spaces) && spaces == old(spaces)[id := old(spaces)[id].(tables := old(spaces)[id].tables - {d})]
      ensures |free| + |spaces[id].tables| == |old(free)| + |old(spaces)[id].tables|
    {
      hide WorldOk;
      DropTableKeeps(W(), id, d);
      ghost var w := W();
      assert spaces[id].tables[d] !in free;
      free := free + {spaces[id].tables[d]};
      ref := ref[spaces[id].tables[d] := 0];
      use := use[spaces[id].tables[d] := Free];
      spaces := spaces[id := spaces[id].(tables := spaces[id].tables - {d})];
      assert W() == WithoutTable(w, id, d);
    }

    /** The first loop of `exit_mmap`. */
    method UnmapAreas(id: nat)
      requires Valid({}) && id in spaces && Covered(spaces[id])
      modifies this
      ensures Valid({}) && data == old(data) && use.Keys == old(use.Keys)
      ensures id in old(spaces) && spaces == old(spaces)[id := old(spaces)[id].(ptes := map[])]
      ensures old(Unshared(spaces)) ==> |free| == |old(free)| + |old(spaces)[id].ptes|
    {
      hide WorldOk, FreeOk, TableOf, Unshared;
      ghost var s, sole, n := spaces[id], Unshared(spaces), |free| + |spaces[id].ptes|;
      var i: nat := 0;
      while i < |spaces[id].vmas|
        invariant Valid({}) && data == old(data) && use.Keys == old(use.Keys)
        invariant id in spaces && spaces == old(spaces)[id := s.(ptes := spaces[id].ptes)] && spaces[id].vmas == s.vmas
                  && i <= |s.vmas|
        invariant forall v: nat :: v in spaces[id].ptes ==> v in s.ptes && forall h: nat :: h < i ==>
                    !InVma(s.vmas[h], v)
        invariant sole ==> Unshared(spaces) && |free| + |spaces[id].ptes| == n
      {
        UnmapRange(id, spaces[id].vmas[i].start, spaces[id].vmas[i].end);
        i := i + 1;
      }
      NoneLeft(s, spaces[id].ptes);
    }

    /** The second loop of `exit_mmap`: each table is freed once even when areas share one. */
    method FreeTables(id: nat)
      requires Valid({}) && id in spaces && Covered(spaces[id]) && spaces[id].ptes == map[]
      modifies this
      ensures Valid({}) && data == old(data) && use.Keys == old(use.Keys)
      ensures id in old(spaces) && spaces == old(spaces)[id := old(spaces)[id].(tables := map[])]
      ensures |free| == |old(free)| + |old(spaces)[id].tables|
    {
      hide WorldOk, FreeOk, TableOf, Covered, SansTables, TablesPast;
      ghost var s := spaces[id];
      AreasSorted(s);
      TablesAll(s);
      var i: nat := 0;
      while i < |spaces[id].vmas|
        invariant Valid({}) && data == old(data) && use.Keys == old(use.Keys)
        invariant id in spaces && spaces == old(spaces)[id := s.(tables := spaces[id].tables)]
        invariant spaces[id].vmas == s.vmas && i <= |s.vmas| && TablesPast(s, i, spaces[id].tables)
        invariant |free| + |spaces[id].tables| == |old(free)| + |s.tables|
      {
        PastNext(s, i, spaces[id].tables);
        ExitRange(id, spaces[id].vmas[i].start, spaces[id].vmas[i].end);
        i := i + 1;
      }
      NoTableLeft(s, spaces[id].tables);
    }

    /** Unmaps every area, then frees the page tables. */
    method ExitMmap(id: nat)
      requires Valid({}) && id in spaces && Covered(spaces[id])
      modifies this
      ensures Valid({}) && data == old(data) && use.Keys == old(use.Keys)
      ensures id in old(spaces) && spaces == old(spaces)[id := old(spaces)[id].(ptes := map[], tables := map[])]
      ensures old(Unshared(spaces)) ==> |free| == |old(free)| + |old(spaces)[id].ptes| + |old(spaces)[id].tables|
    {
      hide WorldOk, FreeOk, TableOf, Unshared, Covered;
      ghost var s := spaces[id];
      UnmapAreas(id);
      StillTabled(s);
      FreeTables(id);
    }

    /** Frees the directory of an emptied space. */
    method PutPgdir(id: nat)
      requires Valid({}) && id in spaces && spaces[id].ptes == map[] && spaces[id].tables == map[]
      modifies this`free, this`ref, this`spaces, this`use
      ensures Valid({}) && use.Keys == old(use.Keys) && spaces == old(spaces) - {id} && |free| == |old(free)| + 1
    {
      hide WorldOk;
      DropSpaceKeeps(W(), id);
      ghost var w := W();
      assert spaces[id].dir !in free;
      free := free + {spaces[id].dir};
      ref := ref[spaces[id].dir := 0];
      use := use[spaces[id].dir := Free];
      spaces := spaces - {id};
      assert W() == WithoutSpace(w, id);
    }

    /** `get_pte` with the entry's table made when it is missing. */
    method GetPte(id: nat, v: nat, ghost loose: set<nat>) returns (ok: bool)
      requires Valid(loose) && id in spaces
      modifies this`free, this`ref, this`spaces, this`use
      ensures Valid(loose) && use.Keys == old(use.Keys) && (!ok ==> use == old(use) && ref == old(ref))
      ensures id in old(spaces) && id in spaces
              && spaces == old(spaces)[id := old(spaces)[id].(tables := spaces[id].tables)]
      ensures ok <==> TableOf(v) in old(spaces)[id].tables || old(free) != {}
      ensures ok ==> spaces[id].tables.Keys == old(spaces)[id].tables.Keys + {TableOf(v)}
      ensures !ok ==> spaces == old(spaces) && free == {}
      ensures ok ==> |free| == |old(free)| - (if TableOf(v) in old(spaces)[id].tables then 0 else 1)
    {
      hide WorldOk, TableOf;
      if TableOf(v) in spaces[id].tables {
        assert spaces == spaces[id := spaces[id].(tables := spaces[id].tables)];
        return true;
      }
      var page := AllocPage(loose);
      if page.None? {
        assert spaces == spaces[id := spaces[id].(tables := spaces[id].tables)];
        return false;
      }
      WithTableKeeps(W(), id, TableOf(v), page.value);
      ghost var w := W();
      ref := ref[page.value := 1];
      spaces := spaces[id := spaces[id].(tables := spaces[id].tables[TableOf(v) := page.value])];
      use := use[page.value := Table(id, TableOf(v))];
      assert W() == WithTable(w, id, TableOf(v), page.value);
      return true;
    }

    /** `page_insert` of a newly allocated page where there is no entry yet. */
    method InsertNew(id: nat, v: nat, f: nat, perm: nat, page: Page)
      requires id in spaces && v !in spaces[id].ptes && TableOf(v) in spaces[id].tables && Placeable(f, page)
      modifies this`ref, this`data, this`spaces, this`use, this`names
      ensures Valid({}) && use.Keys == old(use.Keys)
      ensures f in old(use) && f in old(ref) && (old(use)[f] != Free ==> f in old(names))
      ensures W() == if old(use)[f] == Free then Mapped(old(W()), id, v, f, perm, page)
                     else Shared(old(W()), id, v, f, perm)
    {
      hide WorldOk, FreeOk, TableOf;
      ghost var w := W();
      if use[f] == Free {
        MapKeeps(w, id, v, f, perm, page);
        FreePlaced(free, use, f);
      } else {
        ShareKeeps(w, id, v, f, perm);
      }
      data := data[f := page];
      ref := ref[f := ref[f] + 1];
      spaces := spaces[id := spaces[id].(ptes := spaces[id].ptes[v := Pte(f, perm)])];
      names := names[f := (if use[f] == Free then {} else names[f]) + {(id, v)}];
      use := use[f := Data];
      assert w.use[f] == Free ==> {} + {(id, v)} == {(id, v)};
      assert w.use[f] == Data ==> use == w.use && data == w.data;
      assert W() == if w.use[f] == Free then Mapped(w, id, v, f, perm, page) else Shared(w, id, v, f, perm);
    }

    /** The frame is loose and about to hold `page`, or in use and holds it. */
    ghost predicate Placeable(f: nat, page: Page)
      reads this
    {
      f in use && if use[f] == Free then Valid({f})
      else Valid({}) && use[f] == Data && f in data && data[f] == page
    }

    /** Copies one present page of `from` to the same place in `to`. */
    method CopyPage(to: nat, from: nat, v: nat, ghost done: iset<nat>) returns (r: Status)
      requires Valid({}) && to in spaces && from in spaces && to != from && v in spaces[from].ptes && v !in done
      requires Progress(W(), from, to, done)
      modifies this
      ensures r == Panic ==> free == {}
      ensures r == Fate(PageAsks(old(spaces)[to].tables.Keys, v), |old(free)|)
      ensures r == Ok ==> |free| == |old(free)| - |PageAsks(old(spaces)[to].tables.Keys, v)|
      ensures r != Panic ==> Valid({}) && use.Keys == old(use.Keys)
      ensures to in old(spaces) && to in spaces
              && spaces == old(spaces)[to := old(spaces)[to].(tables := spaces[to].tables, ptes := spaces[to].ptes)]
      ensures r == Ok ==>
                Progress(W(), from, to, done + iset{v})
                && spaces[to].tables.Keys == old(spaces)[to].tables.Keys + {TableOf(v)}
                && spaces[to].ptes.Keys == old(spaces)[to].ptes.Keys + {v}
      ensures r == NoMem ==> spaces == old(spaces)
      ensures r != Panic ==> KeepsData(old(W()), W(), to)
    {
      hide WorldOk, Progress, TableOf, FreeOk, KeepsData;
      ghost var w := W();
      NotYet(w, from, to, done, v);
      var ok := GetPte(to, v, {});
      ghost var u := W();
      TableProgress(w, u, from, to, done);
      KeepsSame(w, u, to);
      if !ok {
        assert spaces[to] == old(spaces)[to];
        return NoMem;
      }
      ok := CopyFrame(to, from, v, done);
      if !ok {
        return Panic;
      }
      KeepsTrans(w, u, W(), to);
      return Ok;
    }

    /** Its second half: a new frame for the page, when the table is there. */
    method CopyFrame(to: nat, from: nat, v: nat, ghost done: iset<nat>) returns (ok: bool)
      requires Valid({}) && to in spaces && from in spaces && to != from && v in spaces[from].ptes && v !in done
      requires Progress(W(), from, to, done) && TableOf(v) in spaces[to].tables
      modifies this
      ensures ok <==> old(free) != {}
      ensures to in spaces && use.Keys == old(use.Keys)
      ensures !ok ==> free == {} && spaces == old(spaces)
      ensures ok ==> Valid({}) && |free| == |old(free)| - 1
      ensures ok ==> Progress(W(), from, to, done + iset{v}) && KeepsData(old(W()), W(), to)
      ensures ok ==> to in old(spaces) && spaces == old(spaces)[to := old(spaces)[to].(ptes := spaces[to].ptes)]
                     && spaces[to].ptes.Keys == old(spaces)[to].ptes.Keys + {v}
    {
      hide WorldOk, Progress, TableOf, FreeOk, KeepsData;
      ghost var u := W();
      NotYet(u, from, to, done, v);
      PteAt(u, from, v);
      var p := spaces[from].ptes[v];
      var npage := AllocPage({});
      if npage.None? {
        return false;
      }
      assert {} + {npage.value} == {npage.value};
      InsertNew(to, v, npage.value, UserBits(p.perm), data[p.frame]);
      MapProgress(u, from, to, done, v, npage.value);
      return true;
    }

    /** `copy_range` over area `k` of the copy. */
    method CopyRange(to: nat, from: nat, start: nat, end: nat, ghost done: iset<nat>, ghost k: nat) returns (r: Status)
      requires Valid({}) && to in spaces && from in spaces && to != from && start < end
      requires Progress(W(), from, to, done) && (forall x: nat :: start <= x < end ==> x !in done)
      requires Covered(spaces[to]) && k < |spaces[to].vmas| && spaces[to].vmas[k].start == start
               && spaces[to].vmas[k].end == end
      modifies this
      ensures to in old(spaces) && to in spaces
              && spaces == old(spaces)[to := old(spaces)[to].(tables := spaces[to].tables, ptes := spaces[to].ptes)]
      ensures r == Panic ==> free == {}
      ensures r == Fate(RangeAsks(old(spaces)[from].ptes.Keys, old(spaces)[to].tables.Keys, start, end), |old(free)|)
      ensures var mapped, have := old(spaces)[from].ptes.Keys, old(spaces)[to].tables.Keys;
              r == Ok ==> |free| == |old(free)| - |RangeAsks(mapped, have, start, end)|
                          && spaces[to].tables.Keys == RangeHave(mapped, have, start, end)
      ensures r != Panic ==>
                Valid({}) && use.Keys == old(use.Keys) && KeepsData(old(W()), W(), to) && Covered(spaces[to])
      ensures r == Ok ==> Progress(W(), from, to, done + Span(start, end))
    {
      hide WorldOk, Progress, TableOf, FreeOk, KeepsData, Covered, NextTable, Span, Copied;
      hide Owed, PageAsks, RangeAsks, RangeHave, Fate;
      var v := start;
      ghost var w, m: nat := W(), start;
      ghost var mapped, have, n, asked := spaces[from].ptes.Keys, spaces[to].tables.Keys, |free|, [];
      OwedAll(mapped, have, start, end);
      KeepsSame(w, w, to);
      SpanNone(w, from, to, done, start);
      while v < end
        invariant start <= v && m == Min(v, end) && Valid({}) && use.Keys == old(use.Keys)
        invariant to in spaces && spaces == old(spaces)[to :=
                    old(spaces)[to].(tables := spaces[to].tables, ptes := spaces[to].ptes)]
        invariant KeepsData(w, W(), to) && Covered(spaces[to])
        invariant Progress(W(), from, to, done + Span(start, m))
        invariant |asked| <= n && |free| == n - |asked|
        invariant Owed(mapped, have, start, end, asked, spaces[to].tables.Keys, m)
        decreases end - v
      {
        ghost var u := W();
        if TableOf(v) !in spaces[from].tables {
          m := Min(NextTable(v), end);
          NoEntries(u, from, v, m);
          OwedSkip(mapped, have, start, end, asked, spaces[to].tables.Keys, v, m);
          SkipProgress(u, from, to, done, start, v, m);
          v := NextTable(v);
        } else {
          if v in spaces[from].ptes {
            SpanFresh(done, start, v, end);
            ghost var keys := spaces[to].tables.Keys;
            var s := CopyPage(to, from, v, done + Span(start, v));
            if s != Ok {
              OwedFails(mapped, have, start, end, asked, keys, v, n);
            }
            if s == Panic {
              return Panic;
            }
            KeepsTrans(w, u, W(), to);
            if s == NoMem {
              return NoMem;
            }
            FateIsShort(PageAsks(keys, v), n - |asked|);
            OwedPage(mapped, have, start, end, asked, keys, v);
            asked := asked + PageAsks(keys, v);
            StillCovered(u.spaces[to], spaces[to], k, v);
            SpanNext(W(), from, to, done, start, v);
          } else {
            OwedSkip(mapped, have, start, end, asked, spaces[to].tables.Keys, v, v + 1);
            PassProgress(u, from, to, done, start, v, end);
          }
          v := v + 1;
          m := v;
        }
      }
      OwedNone(mapped, have, start, end, asked, spaces[to].tables.Keys);
      return Ok;
    }

    /** Area `i`, once the later ones are there. */
    method DupArea(to: nat, from: nat, i: nat) returns (r: Status)
      requires Valid({}) && to in spaces && from in spaces && to != from && Covered(spaces[from]) && Covered(spaces[to])
      requires i < |spaces[from].vmas| && spaces[to].vmas == spaces[from].vmas[i + 1..]
      requires Progress(W(), from, to, Areas(spaces[from].vmas[i + 1..]))
      modifies this
      ensures to in old(spaces) && to in spaces && spaces == old(spaces)[to := spaces[to]]
              && spaces[to].dir == old(spaces)[to].dir
      ensures r == Panic ==> free == {}
      ensures var a, mapped, have := old(spaces)[from].vmas[i], old(spaces)[from].ptes.Keys,
                old(spaces)[to].tables.Keys;
              && r == Fate(RangeAsks(mapped, have, a.start, a.end), |old(free)|)
              && (r == Ok ==> |free| == |old(free)| - |RangeAsks(mapped, have, a.start, a.end)|)
              && (r == Ok ==> spaces[to].tables.Keys == RangeHave(mapped, have, a.start, a.end))
      ensures r != Panic ==>
                Valid({}) && use.Keys == old(use.Keys) && KeepsData(old(W()), W(), to) && Covered(spaces[to])
      ensures r == Ok ==>
                spaces[to].vmas == old(spaces)[from].vmas[i..]
                && Progress(W(), from, to, Areas(old(spaces)[from].vmas[i..]))
    {
      hide WorldOk, Progress, TableOf, FreeOk, KeepsData, Covered, Areas, Copied, Span, VmasOk, Apart;
      hide RangeAsks, RangeHave, Fate;
      ghost var u, all := W(), spaces[from].vmas;
      var vma := spaces[from].vmas[i];
      AreasSorted(spaces[from]);
      TailApart(all, i, all[i + 1..]);
      var areas, k, apart := InsertVma(spaces[to].vmas, vma);
      FrontArea(all, i, all[i + 1..], k);
      assert areas == all[i..];
      MoreCovered(spaces[to], areas, all, i);
      NewAreas(u, to, areas);
      spaces := spaces[to := spaces[to].(vmas := areas)];
      ghost var u' := W();
      AreaAdded(u, u', from, to, all, i, Areas(all[i + 1..]));
      KeepsSame(u, u', to);
      r := CopyRange(to, from, vma.start, vma.end, Areas(all[i + 1..]), 0);
      if r != Panic {
        KeepsTrans(u, u', W(), to);
        if r == Ok {
          AreaDone(W(), from, to, all, i);
        }
      }
    }

    /** `dup_mmap` into a new space: the areas of `from`, last first. */
    method DupMmap(to: nat, from: nat) returns (r: Status)
      requires Valid({}) && to in spaces && from in spaces && to != from && Covered(spaces[from])
      requires spaces[to].tables == map[] && spaces[to].ptes == map[] && spaces[to].vmas == []
      modifies this
      ensures r == Panic ==> free == {}
      ensures r == Fate(AreaAsks(old(spaces)[from].ptes.Keys, old(spaces)[from].vmas, |old(spaces)[from].vmas|, {}),
                |old(free)|)
      ensures r == Ok ==>
                |free| == |old(free)| - |AreaAsks(old(spaces)[from].ptes.Keys, old(spaces)[from].vmas,
                      |old(spaces)[from].vmas|, {})|
      ensures to in old(spaces) && to in spaces && spaces == old(spaces)[to := spaces[to]]
      ensures r != Panic ==>
                Valid({}) && use.Keys == old(use.Keys) && KeepsData(old(W()), W(), to) && Covered(spaces[to])
      ensures r == Ok ==> spaces[to].vmas == spaces[from].vmas && spaces[to].dir == old(spaces)[to].dir
      ensures r == Ok ==>
                spaces[to].tables.Keys == AreaHave(spaces[from].ptes.Keys, spaces[from].vmas, |spaces[from].vmas|, {})
      ensures r == Ok ==> forall v: nat :: Copied(W(), from, to, v)
    {
      hide WorldOk, Progress, TableOf, FreeOk, KeepsData, Covered, Areas, Copied, Span;
      hide RangeAsks, RangeHave, AreaAsks, AreaHave, Fate;
      ghost var w, s := W(), spaces[from];
      ghost var n, asked := |free|, [];
      assert spaces[to].tables.Keys == {};
      ghost var all, made := AreaAsks(s.ptes.Keys, s.vmas, |s.vmas|, {}), AreaHave(s.ptes.Keys, s.vmas, |s.vmas|, {});
      KeepsSame(w, w, to);
      EmptyCovered(spaces[to]);
      AreasSorted(s);
      assert spaces == spaces[to := spaces[to]];
      var i: nat := |spaces[from].vmas|;
      assert spaces[to].vmas == s.vmas[i..];
      NoAreas(w, from, to, s.vmas[i..]);
      while i > 0
        invariant i <= |s.vmas| && Valid({}) && use.Keys == old(use.Keys)
        invariant to in spaces && spaces == old(spaces)[to := spaces[to]] && spaces[to].dir == old(spaces)[to].dir
        invariant spaces[to].vmas == s.vmas[i..] && Covered(spaces[to])
        invariant KeepsData(w, W(), to) && Progress(W(), from, to, Areas(s.vmas[i..]))
        invariant |asked| <= n && |free| == n - |asked|
                  && all == asked + AreaAsks(s.ptes.Keys, s.vmas, i, spaces[to].tables.Keys)
        invariant made == AreaHave(s.ptes.Keys, s.vmas, i, spaces[to].tables.Keys)
      {
        ghost var u, keys := W(), spaces[to].tables.Keys;
        ghost var mine := AreaShare(s, i, keys, all, asked, n);
        i := i - 1;
        r := DupArea(to, from, i);
        asked := asked + mine;
        if r == Panic {
          return Panic;
        }
        KeepsTrans(w, u, W(), to);
        if r == NoMem {
          return NoMem;
        }
      }
      assert s.vmas[0..] == s.vmas;
      AreaShareNone(s, spaces[to].tables.Keys, all, asked, n);
      AllCopied(W(), from, to, s);
      return Ok;
    }

    /** `mm_map`: a new area, unless its first page lies in one; meeting another one further on is a panic. */
    method MmMap(id: nat, addr: nat, len: nat, flags: nat, granted: bool) returns (r: MapStatus)
      requires Valid({}) && id in spaces && Covered(spaces[id])
      modifies this`spaces
      ensures Valid({})
      ensures r == MapVerdict(old(spaces)[id].vmas, Vma(FirstPage(addr), LastPage(addr, len), flags), granted)
      ensures r == Made ==> id in spaces && Covered(spaces[id]) && spaces == old(spaces)[id := old(spaces)[id].(
                              vmas := Inserted(old(spaces)[id].vmas, Vma(FirstPage(addr), LastPage(addr, len), flags)))]
      ensures r != Made ==> spaces == old(spaces)
      ensures 0 < len && addr + len <= ADDRESSES ==>
                (r == Invalid <==>
                   addr < 0x20_0000 || addr + len > 0xB000_0000 || InSome(old(spaces)[id].vmas, addr / 4096))
      ensures 0 < len && addr + len <= ADDRESSES && (r == Made || r == Overlap) ==>
                (r == Made <==> forall v: nat :: Requested(addr, len, v) ==> !InSome(old(spaces)[id].vmas, v))
      ensures 0 < len && addr + len <= ADDRESSES && r == Made ==>
                forall v: nat ::
                  InSome(spaces[id].vmas, v) <==> InSome(old(spaces)[id].vmas, v) || Requested(addr, len, v)
    {
      hide WorldOk, FreeOk, Covered, Inserted, FirstPage, LastPage, Requested, InSome;
      AreasSorted(spaces[id]);
      MapMeans(spaces[id].vmas, addr, len, flags, granted);
      var vmas, a := spaces[id].vmas, Vma(FirstPage(addr), LastPage(addr, len), flags);
      if !(USER_BASE <= a.start < a.end <= USER_TOP) {
        return Invalid;
      }
      var found := FindArea(vmas, a.start);
      if found {
        return Invalid;
      }
      if !granted {
        return NoVma;
      }
      var areas, k, apart := InsertVma(vmas, a);
      if !apart {
        return Overlap;
      }
      AreaMore(spaces[id], a, k, areas);
      NewAreas(W(), id, areas);
      spaces := spaces[id := spaces[id].(vmas := areas)];
      return Made;
    }

    /**
     `page_insert` of a newly allocated frame or of one in use: the table is made if need be, and the frame
     takes the place of one that is there, which is freed with its last entry.
     */
    method PageInsert(id: nat, v: nat, f: nat, perm: nat, page: Page) returns (ok: bool)
      requires id in spaces && Placeable(f, page)
      modifies this
      ensures id in old(spaces) && id in spaces && f in old(use) && use.Keys == old(use.Keys)
      ensures ok <==> TableOf(v) in old(spaces)[id].tables || old(free) != {}
      ensures !ok ==> Placeable(f, page) && W() == old(W()) && free == old(free)
      ensures ok ==> Valid({}) && data == old(data)[f := page]
      ensures ok && old(Unshared(spaces)) && old(use)[f] == Free ==> Unshared(spaces)
      ensures ok ==> spaces[id].tables.Keys == old(spaces)[id].tables.Keys + {TableOf(v)}
      ensures ok ==> spaces == old(spaces)[id := old(spaces)[id].(
                                 tables := spaces[id].tables, ptes := old(spaces)[id].ptes[v := Pte(f, Present(perm))])]
      ensures ok ==> |free| == |old(free)| - (if TableOf(v) in old(spaces)[id].tables then 0 else 1)
                             + (if Displaces(old(spaces), id, v, f) then 1 else 0)
    {
      hide WorldOk, TableOf, Unshared, Displaces;
      ghost var w := W();
      ok := GetPte(id, v, if use[f] == Free then {f} else {});
      if !ok {
        return;
      }
      Tabled(w, W(), id, v, f);
      Replace(id, v, f, perm, page);
    }

    /** The part of `page_insert` behind `get_pte`. */
    method Replace(id: nat, v: nat, f: nat, perm: nat, page: Page)
      requires id in spaces && TableOf(v) in spaces[id].tables && Placeable(f, page)
      modifies this
      ensures f in old(use) && use.Keys == old(use.Keys) && Valid({}) && data == old(data)[f := page]
      ensures old(Unshared(spaces)) && old(use)[f] == Free ==> Unshared(spaces)
      ensures id in old(spaces)
              && spaces == old(spaces)[id := old(spaces)[id].(
                               ptes := old(spaces)[id].ptes[v := Pte(f, Present(perm))])]
      ensures |free| == |old(free)| + if Displaces(old(spaces), id, v, f) then 1 else 0
    {
      hide WorldOk, FreeOk, TableOf, Unshared, SoleEntry;
      ghost var w0 := W();
      if v in spaces[id].ptes {
        PteAt(w0, id, v);
        if spaces[id].ptes[v].frame == f {
          RepermKeeps(w0, id, v, Present(perm));
          spaces := spaces[id := spaces[id].(ptes := spaces[id].ptes[v := Pte(f, Present(perm))])];
          assert data == old(data)[f := page];
          return;
        }
        PageRemovePte(id, v, if use[f] == Free then {f} else {});
        if w0.use[f] == Data {
          StillPlaceable(w0, W(), f);
        }
      }
      ghost var w := W();
      InsertNew(id, v, f, Present(perm), page);
      if Unshared(w0.spaces) && w0.use[f] == Free {
        FewerEntries(w0.spaces, w.spaces);
        FreshEntry(w, id, v, f, Present(perm));
      }
      assert w.spaces[id].ptes[v := Pte(f, Present(perm))] == w0.spaces[id].ptes[v := Pte(f, Present(perm))];
    }

    /** `pgdir_alloc_page`: a page at `v`, or everything as it was when the page or its table cannot be had. */
    method PgdirAllocPage(id: nat, v: nat, perm: nat, page: Page) returns (ok: bool, ghost f: nat)
      requires Valid({}) && id in spaces && Unshared(spaces) && Covered(spaces[id]) && InSome(spaces[id].vmas, v)
      modifies this
      ensures Valid({}) && Unshared(spaces) && id in old(spaces) && id in spaces && use.Keys == old(use.Keys)
      ensures ok <==> |old(free)| >= |PageAsks(old(spaces)[id].tables.Keys, v)|
      ensures !ok ==> spaces == old(spaces) && data == old(data) && free == old(free)
      ensures ok ==> f in old(use) && old(use)[f] == Free && data == old(data)[f := page] && Covered(spaces[id])
      ensures ok ==> spaces[id].tables.Keys == old(spaces)[id].tables.Keys + {TableOf(v)}
      ensures ok ==> spaces == old(spaces)[id := old(spaces)[id].(
                                 tables := spaces[id].tables, ptes := old(spaces)[id].ptes[v := Pte(f, Present(perm))])]
      ensures ok ==> |free| == |old(free)| - |PageAsks(old(spaces)[id].tables.Keys, v)|
                             + (if v in old(spaces)[id].ptes then 1 else 0)
    {
      hide WorldOk, TableOf, Unshared, Covered, InSome, FreeOk, Displaces;
      f := 0;
      var got := AllocPage({});
      if got.None? {
        return false, f;
      }
      f := got.value;
      assert {} + {f} == {f};
      NewDisplaces(W(), id, v, f);
      ok := PageInsert(id, v, got.value, perm, page);
      if ok {
        EntryCovered(old(spaces)[id], spaces[id], v);
      } else {
        GiveBack(free, use, f);
        free := free + {got.value};
      }
    }

    /** A user program overwrites one of its pages. */
    method Store(id: nat, v: nat, page: Page)
      requires Valid({}) && Entry(spaces, id, v)
      modifies this`data
      ensures Valid({}) && data == old(data)[spaces[id].ptes[v].frame := page]
    {
      hide WorldOk;
      PteAt(W(), id, v);
      StoreKeeps(W(), id, v, page);
      data := data[spaces[id].ptes[v].frame := page];
    }

    method SetupPgdir(id: nat) returns (ok: bool)
      requires Valid({}) && id !in spaces
      modifies this`free, this`spaces, this`use
      ensures Valid({}) && use.Keys == old(use.Keys)
      ensures ok <==> old(free) != {}
      ensures ok ==>
                id in spaces && spaces == old(spaces)[id := Space(spaces[id].dir, map[], map[], [])]
                && |free| == |old(free)| - 1
      ensures !ok ==> spaces == old(spaces) && use == old(use) && free == {}
    {
      hide WorldOk;
      var page := AllocPage({});
      if page.None? {
        return false;
      }
      WithSpaceKeeps(W(), id, page.value);
      ghost var w := W();
      spaces := spaces[id := Space(page.value, map[], map[], [])];
      use := use[page.value := Dir(id)];
      assert W() == WithSpace(w, id, page.value);
      return true;
    }

    /** The end of an address space: nothing of it is left, and no other space notices. */
    method Exit(id: nat)
      requires Valid({}) && id in spaces && Covered(spaces[id])
      modifies this
      ensures Valid({}) && use.Keys == old(use.Keys) && spaces == old(spaces) - {id} && data == old(data)
      ensures KeepsData(old(W()), W(), id)
      ensures old(Unshared(spaces)) ==> |free| == |old(free)| + 1 + |old(spaces)[id].tables| + |old(spaces)[id].ptes|
    {
      hide WorldOk, FreeOk, Covered, KeepsData, Unshared;
      ghost var w := W();
      ExitMmap(id);
      PutPgdir(id);
      assert spaces == old(spaces) - {id};
      KeepsSame(w, W(), id);
    }

    /** `copy_mm` without sharing: a private copy, or no trace of the attempt. */
    method CopyMm(child: nat, parent: nat) returns (r: Status)
      requires Valid({}) && parent in spaces && child !in spaces && Covered(spaces[parent])
      modifies this
      ensures r == Panic ==> free == {}
      ensures r == Fate(CopyAsks(old(spaces)[parent].ptes.Keys, old(spaces)[parent].vmas), |old(free)|)
      ensures r == Ok ==> |free| == |old(free)| - |CopyAsks(old(spaces)[parent].ptes.Keys, old(spaces)[parent].vmas)|
      ensures r != Panic ==> Valid({}) && KeepsData(old(W()), W(), child)
      ensures r == Ok ==> child in spaces && spaces == old(spaces)[child := spaces[child]] && Covered(spaces[child])
      ensures r == Ok ==> spaces[child].vmas == spaces[parent].vmas && forall v: nat :: Copied(W(), parent, child, v)
      ensures r == Ok ==> spaces[child].tables.Keys == TablesOf(spaces[parent].ptes.Keys)
      ensures r == NoMem ==> spaces == old(spaces) && use == old(use) && free == old(free)
    {
      hide WorldOk, FreeOk, Covered, KeepsData, Copied;
      hide AreaAsks, AreaHave, TablesOf, Unshared, CopyAsks, Fate;
      CopyFate(spaces[parent], |free|);
      ghost var w := W();
      var ok := SetupPgdir(child);
      if !ok {
        KeepsSame(w, W(), child);
        Restored(w, old(free), W(), free);
        return NoMem;
      }
      ghost var u := W();
      KeepsSame(w, u, child);
      r := DupOrCleanUp(child, parent);
      if r != Panic {
        KeepsTrans(w, u, W(), child);
      }
      if r == NoMem {
        assert spaces == old(spaces);
        Restored(w, old(free), W(), free);
      }
    }

    /** The copying part of `copy_mm`, with its way out. */
    method DupOrCleanUp(child: nat, parent: nat) returns (r: Status)
      requires Valid({}) && child in spaces && parent in spaces && child != parent && Covered(spaces[parent])
      requires spaces[child].tables == map[] && spaces[child].ptes == map[] && spaces[child].vmas == []
      modifies this
      ensures r == Panic ==> free == {}
      ensures var s := old(spaces)[parent];
              && r == Fate(AreaAsks(s.ptes.Keys, s.vmas, |s.vmas|, {}), |old(free)|)
              && (r == Ok ==> |free| == |old(free)| - |AreaAsks(s.ptes.Keys, s.vmas, |s.vmas|, {})|)
              && (r == Ok ==> child in spaces)
              && (r == Ok ==> spaces[child].tables.Keys == AreaHave(s.ptes.Keys, s.vmas, |s.vmas|, {}))
      ensures r != Panic ==> Valid({}) && use.Keys == old(use.Keys) && KeepsData(old(W()), W(), child)
      ensures r == Ok ==> spaces == old(spaces)[child := spaces[child]] && Covered(spaces[child])
      ensures r == Ok ==> spaces[child].vmas == spaces[parent].vmas && forall v: nat :: Copied(W(), parent, child, v)
      ensures r == NoMem ==> spaces == old(spaces) - {child}
    {
      hide WorldOk, FreeOk, Covered, KeepsData, Copied, AreaAsks, AreaHave, Unshared, Fate;
      r := DupMmap(child, parent);
      if r == NoMem {
        ghost var t := W();
        Exit(child);
        KeepsTrans(old(W()), t, W(), child);
      }
    }
  }

  ghost predicate InAreas(mapped: set<nat>, vmas: seq<Vma>) {
    VmasOk(vmas) && forall v: nat :: v in mapped ==> InSome(vmas, v)
  }

  /** A copy takes a directory, a frame for every page and one for every table that serves a page. */
  lemma FramesNeeded(mapped: set<nat>, vmas: seq<Vma>)
    requires InAreas(mapped, vmas)
    ensures |CopyAsks(mapped, vmas)| == 1 + |mapped| + |TablesOf(mapped)|
    ensures AreaHave(mapped, vmas, |vmas|, {}) == TablesOf(mapped)
  {
    AreaCount(mapped, vmas, |vmas|, {});
    EveryPage(mapped, vmas);
    assert {} + TablesOf(mapped) == TablesOf(mapped);
  }

  /** After the directory, the areas decide. */
  lemma CopyFate(s: Space, free: nat)
    requires Covered(s)
    ensures free == 0 ==> Fate(CopyAsks(s.ptes.Keys, s.vmas), free) == NoMem
    ensures free > 0 ==>
              Fate(CopyAsks(s.ptes.Keys, s.vmas), free) == Fate(AreaAsks(s.ptes.Keys, s.vmas, |s.vmas|, {}), free - 1)
    ensures |CopyAsks(s.ptes.Keys, s.vmas)| == 1 + |AreaAsks(s.ptes.Keys, s.vmas, |s.vmas|, {})|
    ensures AreaHave(s.ptes.Keys, s.vmas, |s.vmas|, {}) == TablesOf(s.ptes.Keys)
  {
    hide AreaAsks, AreaHave;
    PagesCovered(s);
    FramesNeeded(s.ptes.Keys, s.vmas);
    FateSplit([ForDir], AreaAsks(s.ptes.Keys, s.vmas, |s.vmas|, {}), free);
  }

  lemma EveryPage(mapped: set<nat>, vmas: seq<Vma>)
    requires InAreas(mapped, vmas)
    ensures PagesOf(mapped, vmas, |vmas|) == mapped
  {
    var n := |vmas|;
    forall v: nat | v in mapped
      ensures v in PagesOf(mapped, vmas, n)
    {
      var i: nat :| i < |vmas| && InVma(vmas[i], v);
      PageOf(mapped, vmas, n, i, v);
    }
    PagesMapped(mapped, vmas, n);
  }

  lemma {:induction false} PageOf(mapped: set<nat>, vmas: seq<Vma>, n: nat, i: nat, v: nat)
    requires i < n <= |vmas| && InVma(vmas[i], v) && v in mapped
    ensures v in PagesOf(mapped, vmas, n)
  {
    if i < n - 1 {
      PageOf(mapped, vmas, n - 1, i, v);
    }
  }

  lemma {:induction false} PagesMapped(mapped: set<nat>, vmas: seq<Vma>, n: nat)
    requires n <= |vmas|
    ensures PagesOf(mapped, vmas, n) <= mapped
  {
    if n > 0 {
      PagesMapped(mapped, vmas, n - 1);
    }
  }

  /** The requests of the area before `n`, and what is left when they fail. */
  lemma AreaShare(s: Space, n: nat, have: set<nat>, all: seq<Ask>, asked: seq<Ask>, free: nat) returns (mine: seq<Ask>)
    requires 0 < n <= |s.vmas| && all == asked + AreaAsks(s.ptes.Keys, s.vmas, n, have) && |asked| <= free
    ensures var a := s.vmas[n - 1];
            && mine == RangeAsks(s.ptes.Keys, have, a.start, a.end)
            && all == (asked + mine) + AreaAsks(s.ptes.Keys, s.vmas, n - 1,
                 RangeHave(s.ptes.Keys, have, a.start, a.end))
            && AreaHave(s.ptes.Keys, s.vmas, n, have) == AreaHave(s.ptes.Keys, s.vmas, n - 1,
                 RangeHave(s.ptes.Keys, have, a.start, a.end))
            && (Fate(mine, free - |asked|) != Ok ==> Fate(all, free) == Fate(mine, free - |asked|))
            && (Fate(mine, free - |asked|) == Ok ==> |asked + mine| <= free)
  {
    hide RangeAsks, RangeHave;
    var a := s.vmas[n - 1];
    mine := RangeAsks(s.ptes.Keys, have, a.start, a.end);
    var more := AreaAsks(s.ptes.Keys, s.vmas, n - 1, RangeHave(s.ptes.Keys, have, a.start, a.end));
    assert asked + (mine + more) == (asked + mine) + more;
    FateSplit(asked + mine, more, free);
    FateSplit(asked, mine, free);
  }

  lemma AreaShareNone(s: Space, have: set<nat>, all: seq<Ask>, asked: seq<Ask>, free: nat)
    requires all == asked + AreaAsks(s.ptes.Keys, s.vmas, 0, have) && |asked| <= free
    ensures Fate(all, free) == Ok && |all| == |asked| && AreaHave(s.ptes.Keys, s.vmas, 0, have) == have
  {
  }

  lemma OwedAll(mapped: set<nat>, have: set<nat>, start: nat, end: nat)
    ensures Owed(mapped, have, start, end, [], have, start)
  {
  }

  lemma OwedNone(mapped: set<nat>, have0: set<nat>, start: nat, end: nat, asked: seq<Ask>, have: set<nat>)
    requires Owed(mapped, have0, start, end, asked, have, end)
    ensures RangeAsks(mapped, have0, start, end) == asked && RangeHave(mapped, have0, start, end) == have
    ensures forall free: nat :: |asked| <= free ==> Fate(asked, free) == Ok
  {
  }

  /** A missing table has no entries. */
  lemma NoEntries(w: World, id: nat, v: nat, m: nat)
    requires WorldOk(w) && id in w.spaces && TableOf(v) !in w.spaces[id].tables && v <= m <= NextTable(v)
    ensures forall x: nat :: v <= x < m ==> x !in w.spaces[id].ptes
  {
    hide WorldOk;
    forall x: nat | v <= x < m
      ensures x !in w.spaces[id].ptes
    {
      if x in w.spaces[id].ptes {
        PteAt(w, id, x);
      }
    }
  }

  /** The same address spaces leave the same frames free. */
  lemma Restored(w: World, before: set<nat>, u: World, after: set<nat>)
    requires WorldOk(w) && WorldOk(u) && w.spaces == u.spaces && w.use.Keys == u.use.Keys
    requires FreeOk(before, w.use, {}) && FreeOk(after, u.use, {})
    ensures w.use == u.use && before == after
  {
    hide WorldOk;
    UseDetermined(w, u);
    assert forall f: nat :: f in before <==> f in after;
  }

  ghost predicate Apart(vmas: seq<Vma>, a: Vma) {
    forall i: nat :: i < |vmas| ==> vmas[i].end <= a.start || a.end <= vmas[i].start
  }

  /** The areas in order of address with one more among them. */
  function Inserted(vmas: seq<Vma>, a: Vma): seq<Vma> {
    if vmas == [] || a.start < vmas[0].start then [a] + vmas else [vmas[0]] + Inserted(vmas[1..], a)
  }

  lemma {:induction false} InsertedAt(vmas: seq<Vma>, a: Vma, k: nat)
    requires k <= |vmas| && (forall i: nat :: i < k ==> vmas[i].start <= a.start)
             && (k < |vmas| ==> a.start < vmas[k].start)
    ensures Inserted(vmas, a) == vmas[..k] + [a] + vmas[k..]
  {
    if k > 0 {
      forall i: nat | i < k - 1
        ensures vmas[1..][i].start <= a.start
      {
        assert vmas[1..][i] == vmas[i + 1];
      }
      InsertedAt(vmas[1..], a, k - 1);
      assert vmas[..k] == [vmas[0]] + vmas[1..][..k - 1];
    }
  }

  /**
   `insert_vma_struct`: keeps the areas in order of address.  The two neighbours alone are compared
   with the new area, which tells whether it meets any.
   */
  method InsertVma(vmas: seq<Vma>, a: Vma) returns (r: seq<Vma>, k: nat, ok: bool)
    requires VmasOk(vmas) && a.start < a.end
    ensures ok <==> Apart(vmas, a)
    ensures ok ==> VmasOk(r) && k <= |vmas| && r == vmas[..k] + [a] + vmas[k..] && r == Inserted(vmas, a)
    ensures ok ==> forall i: nat :: i < k ==> vmas[i].start <= a.start
  {
    k := 0;
    while k < |vmas| && vmas[k].start <= a.start
      invariant k <= |vmas| && forall i: nat :: i < k ==> vmas[i].start <= a.start
    {
      k := k + 1;
    }
    r := vmas[..k] + [a] + vmas[k..];
    ok := (k == 0 || vmas[k - 1].end <= a.start) && (k == |vmas| || a.end <= vmas[k].start);
    if ok {
      NeighboursApart(vmas, a, k);
      InsertedOk(vmas, a, k, r);
      InsertedAt(vmas, a, k);
    } else {
      assert k > 0 ==> vmas[k - 1].start <= a.start < a.end;
      assert k < |vmas| ==> a.start < vmas[k].start < vmas[k].end;
    }
  }

  lemma NeighboursApart(vmas: seq<Vma>, a: Vma, k: nat)
    requires VmasOk(vmas) && k <= |vmas|
    requires k == 0 || vmas[k - 1].end <= a.start
    requires k == |vmas| || a.end <= vmas[k].start
    ensures Apart(vmas, a)
  {
    forall i: nat | i < |vmas|
      ensures vmas[i].end <= a.start || a.end <= vmas[i].start
    {
      assert i < k - 1 ==> vmas[i].end <= vmas[k - 1].start < vmas[k - 1].end;
      assert k < i ==> vmas[k].start < vmas[k].end <= vmas[i].start;
    }
  }

  lemma InsertedOk(vmas: seq<Vma>, a: Vma, k: nat, r: seq<Vma>)
    requires VmasOk(vmas) && a.start < a.end && Apart(vmas, a) && k <= |vmas| && r == vmas[..k] + [a] + vmas[k..]
    requires (forall i: nat :: i < k ==> vmas[i].start <= a.start) && (k < |vmas| ==> a.start < vmas[k].start)
    ensures VmasOk(r)
  {
    forall i: nat | i < |vmas|
      ensures if i < k then vmas[i].end <= a.start else a.end <= vmas[i].start
    {
      assert vmas[i].start < vmas[i].end;
      assert k < i ==> vmas[k].end <= vmas[i].start && vmas[k].start < vmas[k].end;
    }
    forall i: nat, j: nat | i < j < |r|
      ensures r[i].end <= r[j].start
    {
      assert i != k && j != k ==> vmas[if i < k then i else i - 1].end <= vmas[if j < k then j else j - 1].start;
    }
  }

  /** `find_vma`, as far as whether there is one. */
  method FindArea(vmas: seq<Vma>, v: nat) returns (found: bool)
    ensures found <==> InSome(vmas, v)
  {
    var i: nat := 0;
    while i < |vmas|
      invariant i <= |vmas| && forall h: nat :: h < i ==> !InVma(vmas[h], v)
    {
      if InVma(vmas[i], v) {
        return true;
      }
      i := i + 1;
    }
    return false;
  }

  const PAGE_BYTES: nat := 4096
  const USER_BASE: nat := 0x200
  const USER_TOP: nat := 0xB0000
  const ADDRESSES: nat := 0x1_0000_0000

  /** The pages of `len` bytes from `addr`, in 32-bit arithmetic: the first page, and the one behind the last. */
  function FirstPage(addr: nat): nat { addr / PAGE_BYTES }

  function LastPage(addr: nat, len: nat): nat {
    ((addr + len) % ADDRESSES + PAGE_BYTES - 1) % ADDRESSES / PAGE_BYTES
  }

  /** Some byte of the request lies in page `v`. */
  ghost predicate Requested(addr: nat, len: nat, v: nat) {
    v * 4096 < addr + len && addr < (v + 1) * 4096
  }

  /** The area asked for holds every byte of the request and no page without one; a request that would need the
      last page of the address space is turned down. */
  lemma AskedPages(addr: nat, len: nat)
    requires 0 < len && addr + len <= ADDRESSES
    ensures var start, end := FirstPage(addr), LastPage(addr, len);
            && start * 4096 <= addr < (start + 1) * 4096
            && (addr + len <= ADDRESSES - 4096 ==> (end - 1) * 4096 < addr + len <= end * 4096)
            && (addr + len > ADDRESSES - 4096 ==> end == 0 || end > USER_TOP)
  {
    if addr + len < ADDRESSES {
      assert (addr + len) % ADDRESSES == addr + len;
    }
  }

  /** A request for no bytes, or one that wraps, is for the page of `addr` exactly when its end in 32 bits lies behind
      the start of that page, and otherwise for nothing. */
  lemma OddRequest(addr: nat, len: nat)
    requires addr < ADDRESSES - 4096 && len < ADDRESSES && (len == 0 || addr + len >= ADDRESSES)
    ensures var start, end, last := FirstPage(addr), LastPage(addr, len), (addr + len) % ADDRESSES;
            && start * 4096 <= addr < (start + 1) * 4096 && last <= addr
            && if start * 4096 < last then end == start + 1 else end <= start
  {
    if addr + len >= ADDRESSES {
      assert (addr + len) % ADDRESSES == addr + len - ADDRESSES;
    }
  }

  lemma AskedIn(addr: nat, len: nat, flags: nat, v: nat)
    requires 0 < len && addr + len <= ADDRESSES - 4096
    ensures InVma(Vma(FirstPage(addr), LastPage(addr, len), flags), v) <==> Requested(addr, len, v)
  {
    AskedPages(addr, len);
  }

  lemma {:induction false} InsertedPages(vmas: seq<Vma>, a: Vma, v: nat)
    ensures InSome(Inserted(vmas, a), v) <==> InSome(vmas, v) || InVma(a, v)
  {
    if vmas == [] || a.start < vmas[0].start {
      SomeFirst(a, vmas, v);
    } else {
      InsertedPages(vmas[1..], a, v);
      SomeFirst(vmas[0], Inserted(vmas[1..], a), v);
      SomeFirst(vmas[0], vmas[1..], v);
      assert vmas == [vmas[0]] + vmas[1..];
    }
  }

  lemma SomeFirst(a: Vma, rest: seq<Vma>, v: nat)
    ensures InSome([a] + rest, v) <==> InVma(a, v) || InSome(rest, v)
  {
    var all := [a] + rest;
    if InVma(a, v) {
      assert InVma(all[0], v);
    }
    if InSome(rest, v) {
      var i: nat :| i < |rest| && InVma(rest[i], v);
      assert InVma(all[i + 1], v);
    }
    if InSome(all, v) {
      var i: nat :| i < |all| && InVma(all[i], v);
      assert i > 0 ==> InVma(rest[i - 1], v);
    }
  }

  /** Areas are apart when they have no page in common. */
  lemma ApartPages(vmas: seq<Vma>, a: Vma)
    requires VmasOk(vmas) && a.start < a.end
    ensures Apart(vmas, a) <==> forall v: nat :: InVma(a, v) ==> !InSome(vmas, v)
  {
    if !Apart(vmas, a) {
      var i: nat :| i < |vmas| && !(vmas[i].end <= a.start || a.end <= vmas[i].start);
      var v := if vmas[i].start > a.start then vmas[i].start else a.start;
      assert InVma(vmas[i], v) && InVma(a, v);
    }
  }

  /** What becomes of a request that does not wrap, told by its bytes. */
  lemma MapMeans(vmas: seq<Vma>, addr: nat, len: nat, flags: nat, granted: bool)
    requires VmasOk(vmas)
    ensures 0 < len && addr + len <= ADDRESSES ==>
              var a := Vma(FirstPage(addr), LastPage(addr, len), flags);
              var r := MapVerdict(vmas, a, granted);
              && (r == Invalid <==> addr < 0x20_0000 || addr + len > 0xB000_0000 || InSome(vmas, addr / 4096))
              && (r == Made || r == Overlap ==>
                    (r == Made <==> forall v: nat :: Requested(addr, len, v) ==> !InSome(vmas, v)))
              && (r == Made ==> forall v: nat :: InSome(Inserted(vmas, a), v) <==>
                    InSome(vmas, v) || Requested(addr, len, v))
  {
    if 0 < len && addr + len <= ADDRESSES {
      var a := Vma(FirstPage(addr), LastPage(addr, len), flags);
      AskedPages(addr, len);
      assert FirstPage(addr) == addr / 4096;
      hide FirstPage, LastPage, InSome, Requested, Inserted, VmasOk, Apart;
      if addr + len <= ADDRESSES - 4096 && a.start < a.end {
        ApartPages(vmas, a);
        forall v: nat
          ensures InVma(a, v) <==> Requested(addr, len, v)
          ensures InSome(Inserted(vmas, a), v) <==> InSome(vmas, v) || InVma(a, v)
        {
          AskedIn(addr, len, flags, v);
          InsertedPages(vmas, a, v);
        }
      }
    }
  }

  datatype MapStatus = Made | Invalid | NoVma | Overlap

  /** What becomes of a request for an area. */
  ghost function MapVerdict(vmas: seq<Vma>, a: Vma, granted: bool): MapStatus {
    if !(USER_BASE <= a.start < a.end <= USER_TOP) || InSome(vmas, a.start) then Invalid
    else if !granted then NoVma
    else if Apart(vmas, a) then Made
    else Overlap
  }

  lemma AreaMore(s: Space, a: Vma, k: nat, areas: seq<Vma>)
    requires Covered(s) && k <= |s.vmas| && areas == s.vmas[..k] + [a] + s.vmas[k..] && VmasOk(areas)
    ensures Covered(s.(vmas := areas))
  {
    forall i: nat | i < |s.vmas|
      ensures s.vmas[i] == areas[if i < k then i else i + 1]
    {
    }
    forall v: nat | v in s.ptes
      ensures InSome(areas, v)
    {
      var i: nat :| i < |s.vmas| && InVma(s.vmas[i], v);
      assert InVma(areas[if i < k then i else i + 1], v);
    }
    forall d: nat | d in s.tables
      ensures SomeReaches(areas, d)
    {
      var i: nat :| i < |s.vmas| && Reaches(s.vmas[i], d);
      assert Reaches(areas[if i < k then i else i + 1], d);
    }
  }

  /** A page entered inside an area. */
  lemma EntryCovered(s: Space, t: Space, v: nat)
    requires Covered(s) && t.vmas == s.vmas && InSome(s.vmas, v)
    requires t.tables.Keys == s.tables.Keys + {TableOf(v)} && t.ptes.Keys == s.ptes.Keys + {v}
    ensures Covered(t)
  {
    var k: nat :| k < |s.vmas| && InVma(s.vmas[k], v);
    hide Covered;
    StillCovered(s, t, k, v);
  }

  ghost function Areas(vmas: seq<Vma>): iset<nat> {
    iset x: nat | InSome(vmas, x)
  }

  lemma StillTabled(s: Space)
    requires Covered(s)
    ensures Covered(s.(ptes := map[]))
  {
  }

  lemma PagesCovered(s: Space)
    requires Covered(s)
    ensures InAreas(s.ptes.Keys, s.vmas)
  {
  }

  lemma AreasSorted(s: Space)
    requires Covered(s)
    ensures VmasOk(s.vmas)
  {
  }

  lemma EmptyCovered(s: Space)
    requires s.tables == map[] && s.ptes == map[] && s.vmas == []
    ensures Covered(s)
  {
  }

  lemma NoAreas(w: World, from: nat, to: nat, vmas: seq<Vma>)
    requires from in w.spaces && to in w.spaces && w.spaces[to].ptes == map[] && vmas == []
    ensures Progress(w, from, to, Areas(vmas))
  {
  }

  /** An area put before the later ones goes to the front. */
  lemma FrontArea(all: seq<Vma>, i: nat, rest: seq<Vma>, k: nat)
    requires VmasOk(all) && i < |all| && rest == all[i + 1..] && k <= |rest|
    requires forall h: nat :: h < k ==> rest[h].start <= all[i].start
    ensures k == 0 && [all[i]] + rest == all[i..]
  {
    LaterAreas(all, i, rest);
    assert |rest| > 0 ==> rest[0].start > all[i].start;
  }

  lemma LaterAreas(all: seq<Vma>, i: nat, rest: seq<Vma>)
    requires VmasOk(all) && i < |all| && rest == all[i + 1..]
    ensures all[i].start < all[i].end
    ensures forall h: nat :: h < |rest| ==> all[i].end <= rest[h].start < rest[h].end
  {
    forall h: nat | h < |rest|
      ensures all[i].end <= rest[h].start < rest[h].end
    {
      assert rest[h] == all[i + 1 + h];
    }
  }

  lemma TailApart(all: seq<Vma>, i: nat, rest: seq<Vma>)
    requires VmasOk(all) && i < |all| && rest == all[i + 1..]
    ensures VmasOk(rest) && Apart(rest, all[i]) && all[i].start < all[i].end
  {
    LaterAreas(all, i, rest);
    forall h: nat, j: nat | h < j < |rest|
      ensures rest[h].end <= rest[j].start
    {
      assert all[i + 1 + h].end <= all[i + 1 + j].start;
    }
  }

  lemma MoreCovered(s: Space, areas: seq<Vma>, all: seq<Vma>, i: nat)
    requires Covered(s) && i < |all| && s.vmas == all[i + 1..] && areas == all[i..] && VmasOk(areas)
    ensures Covered(s.(vmas := areas))
  {
    forall v: nat | v in s.ptes
      ensures InSome(areas, v)
    {
      assert InSome(s.vmas, v);
      var h: nat :| h < |s.vmas| && InVma(s.vmas[h], v);
      assert areas[h + 1] == s.vmas[h];
    }
    forall d: nat | d in s.tables
      ensures SomeReaches(areas, d)
    {
      assert SomeReaches(s.vmas, d);
      var h: nat :| h < |s.vmas| && Reaches(s.vmas[h], d);
      assert areas[h + 1] == s.vmas[h];
    }
  }

  /** Areas are no part of the page tables. */
  lemma NewAreas(w: World, id: nat, areas: seq<Vma>)
    requires WorldOk(w) && id in w.spaces
    ensures WorldOk(w.(spaces := w.spaces[id := w.spaces[id].(vmas := areas)]))
  {
    var u := w.(spaces := w.spaces[id := w.spaces[id].(vmas := areas)]);
    forall g: nat | g in u.use
      ensures FrameOk(u, g)
    {
      hide WorldOk;
      FrameAt(w, g);
      if u.use[g] == Data {
        SameNames(w, u, g);
      }
    }
    forall j: nat | j in u.spaces
      ensures SpaceOk(u, j)
    {
      hide WorldOk;
      SpaceAt(w, j);
      forall e: nat | e in u.spaces[j].tables
        ensures TableOk(u, j, e)
      {
        assert TableOk(w, j, e);
      }
      forall x: nat | x in u.spaces[j].ptes
        ensures PteOk(u, j, x)
      {
        assert PteOk(w, j, x);
      }
    }
  }

  lemma AreaAdded(w: World, u: World, from: nat, to: nat, all: seq<Vma>, i: nat, done: iset<nat>)
    requires i < |all| && done == Areas(all[i + 1..]) && Progress(w, from, to, done) && VmasOk(all)
    requires to in u.spaces && u.data == w.data && u.names == w.names && from != to && from in u.spaces
             && u.spaces[from] == w.spaces[from]
    requires u.spaces[to].ptes == w.spaces[to].ptes
    ensures Progress(u, from, to, done)
    ensures forall x: nat :: all[i].start <= x < all[i].end ==> x !in done
  {
    forall x: nat | x in done
      ensures Copied(u, from, to, x)
    {
      assert Copied(w, from, to, x);
    }
    var rest := all[i + 1..];
    LaterAreas(all, i, rest);
    forall x: nat | x in done
      ensures x >= all[i].end
    {
      var h: nat :| h < |rest| && InVma(rest[h], x);
    }
  }

  lemma AreaDone(w: World, from: nat, to: nat, all: seq<Vma>, i: nat)
    requires i < |all| && Progress(w, from, to, Areas(all[i + 1..]) + Span(all[i].start, all[i].end))
    ensures Progress(w, from, to, Areas(all[i..]))
  {
    forall x: nat
      ensures x in Areas(all[i..]) <==> x in Areas(all[i + 1..]) + Span(all[i].start, all[i].end)
    {
      if InSome(all[i..], x) {
        var h: nat :| h < |all[i..]| && InVma(all[i..][h], x);
        if h > 0 {
          assert all[i + 1..][h - 1] == all[i..][h];
        }
      }
      if InSome(all[i + 1..], x) {
        var h: nat :| h < |all[i + 1..]| && InVma(all[i + 1..][h], x);
        assert all[i..][h + 1] == all[i + 1..][h];
      }
      if InVma(all[i], x) {
        assert all[i..][0] == all[i];
      }
    }
  }

  lemma AllCopied(w: World, from: nat, to: nat, s: Space)
    requires from in w.spaces && w.spaces[from] == s && Covered(s) && Progress(w, from, to, Areas(s.vmas))
    ensures forall v: nat :: Copied(w, from, to, v)
  {
    forall v: nat
      ensures Copied(w, from, to, v)
    {
      if v !in Areas(s.vmas) {
        assert v !in s.ptes && v !in w.spaces[to].ptes;
      }
    }
  }

  /** The pages from `lo` up to `hi`. */
  ghost function Span(lo: nat, hi: nat): iset<nat> {
    iset x: nat | Within(lo, hi, x)
  }

  lemma SpanNone(w: World, from: nat, to: nat, done: iset<nat>, lo: nat)
    requires Progress(w, from, to, done)
    ensures Progress(w, from, to, done + Span(lo, lo))
  {
    assert done + Span(lo, lo) == done;
  }

  lemma SpanFresh(done: iset<nat>, lo: nat, v: nat, hi: nat)
    requires lo <= v < hi && (forall x: nat :: lo <= x < hi ==> x !in done)
    ensures v !in done + Span(lo, v)
  {
  }

  lemma SpanNext(w: World, from: nat, to: nat, done: iset<nat>, lo: nat, v: nat)
    requires Progress(w, from, to, done + Span(lo, v) + iset{v}) && lo <= v
    ensures Progress(w, from, to, done + Span(lo, v + 1))
  {
    assert done + Span(lo, v) + iset{v} == done + Span(lo, v + 1);
  }

  /** A page absent from both spaces is copied already. */
  lemma PassProgress(w: World, from: nat, to: nat, done: iset<nat>, lo: nat, v: nat, hi: nat)
    requires Progress(w, from, to, done + Span(lo, v)) && lo <= v < hi && (forall x: nat :: lo <= x < hi ==> x !in done)
             && v !in w.spaces[from].ptes
    ensures Progress(w, from, to, done + Span(lo, v + 1))
  {
    assert v !in done + Span(lo, v);
    assert Copied(w, from, to, v);
  }

  lemma SkipProgress(w: World, from: nat, to: nat, done: iset<nat>, lo: nat, v: nat, m: nat)
    requires WorldOk(w) && Progress(w, from, to, done + Span(lo, v)) && lo <= v < m <= NextTable(v)
    requires (forall x: nat :: lo <= x < m ==> x !in done) && TableOf(v) !in w.spaces[from].tables
    ensures Progress(w, from, to, done + Span(lo, m))
  {
    hide WorldOk;
    forall x: nat | v <= x < m
      ensures Copied(w, from, to, x)
    {
      assert x !in done + Span(lo, v) && TableOf(x) == TableOf(v);
      if x in w.spaces[from].ptes {
        PteAt(w, from, x);
      }
    }
  }

  lemma StillCovered(s: Space, t: Space, k: nat, v: nat)
    requires Covered(s) && t.vmas == s.vmas && k < |s.vmas| && InVma(s.vmas[k], v)
    requires t.tables.Keys == s.tables.Keys + {TableOf(v)} && t.ptes.Keys == s.ptes.Keys + {v}
    ensures Covered(t)
  {
    TableOrder(s.vmas[k].start, v);
    TableOrder(v, s.vmas[k].end - 1);
    assert Reaches(s.vmas[k], TableOf(v));
  }

  /** The pages dealt with so far are copied, and the copy has no others. */
  ghost predicate Progress(w: World, from: nat, to: nat, done: iset<nat>) {
    && from in w.spaces && to in w.spaces
    && (forall x: nat :: x in done ==> Copied(w, from, to, x))
    && (forall x: nat :: x in w.spaces[to].ptes ==> x in done)
  }

  predicate SameAt(w: World, u: World, id: nat, x: nat) {
    && id in w.spaces && id in u.spaces && x in w.spaces[id].ptes && x in u.spaces[id].ptes
    && u.spaces[id].ptes[x] == w.spaces[id].ptes[x]
    && var f := w.spaces[id].ptes[x].frame;
    f in w.data && f in u.data && u.data[f] == w.data[f]
  }

  /** What the other address spaces see stays as it was. */
  ghost predicate KeepsData(w: World, u: World, to: nat) {
    forall id: nat, x: nat :: id in w.spaces && id != to && x in w.spaces[id].ptes ==> SameAt(w, u, id, x)
  }

  lemma KeepsTrans(w: World, u: World, t: World, to: nat)
    requires KeepsData(w, u, to) && KeepsData(u, t, to)
    ensures KeepsData(w, t, to)
  {
    forall id: nat, x: nat | id in w.spaces && id != to && x in w.spaces[id].ptes
      ensures SameAt(w, t, id, x)
    {
      assert SameAt(w, u, id, x);
      assert SameAt(u, t, id, x);
    }
  }

  lemma KeepsSame(w: World, u: World, to: nat)
    requires WorldOk(w) && u.data == w.data && (forall id: nat :: id in w.spaces && id != to ==>
               id in u.spaces && u.spaces[id] == w.spaces[id])
    ensures KeepsData(w, u, to)
  {
    hide WorldOk;
    forall id: nat, x: nat | id in w.spaces && id != to && x in w.spaces[id].ptes
      ensures SameAt(w, u, id, x)
    {
      PteAt(w, id, x);
    }
  }

  lemma NotYet(w: World, from: nat, to: nat, done: iset<nat>, v: nat)
    requires Progress(w, from, to, done) && v !in done
    ensures v !in w.spaces[to].ptes
  {
  }

  lemma TableProgress(w: World, u: World, from: nat, to: nat, done: iset<nat>)
    requires Progress(w, from, to, done) && to in u.spaces
             && u.spaces == w.spaces[to := w.spaces[to].(tables := u.spaces[to].tables)] && u.data == w.data
             && u.names == w.names
    ensures Progress(u, from, to, done)
  {
    forall x: nat | x in done
      ensures Copied(u, from, to, x)
    {
      assert Copied(w, from, to, x);
    }
  }

  lemma MapProgress(w: World, from: nat, to: nat, done: iset<nat>, v: nat, f: nat)
    requires WorldOk(w) && Progress(w, from, to, done) && to != from && v in w.spaces[from].ptes && v !in done
             && f in w.use && w.use[f] == Free
    requires w.spaces[from].ptes[v].frame in w.data && f in w.ref
    ensures var p := w.spaces[from].ptes[v];
            && Progress(Mapped(w, to, v, f, UserBits(p.perm), w.data[p.frame]), from, to, done + iset{v})
            && KeepsData(w, Mapped(w, to, v, f, UserBits(p.perm), w.data[p.frame]), to)
  {
    hide WorldOk;
    var p := w.spaces[from].ptes[v];
    var u := Mapped(w, to, v, f, UserBits(p.perm), w.data[p.frame]);
    PteAt(w, from, v);
    forall x: nat | x in done + iset{v}
      ensures Copied(u, from, to, x)
    {
      if x in done {
        assert Copied(w, from, to, x);
        if x in w.spaces[from].ptes {
          PteAt(w, from, x);
          PteAt(w, to, x);
        }
      }
    }
    forall id: nat, x: nat | id in w.spaces && id != to && x in w.spaces[id].ptes
      ensures SameAt(w, u, id, x)
    {
      PteAt(w, id, x);
    }
  }

  lemma TablesNone(tables: map<nat, nat>, lo: nat)
    ensures SansTables(tables, lo, lo) == tables
  {
  }

  lemma TablesNext(tables: map<nat, nat>, lo: nat, d: nat)
    requires lo <= d
    ensures SansTables(tables, lo, d + 1) == SansTables(tables, lo, d) - {d}
    ensures d !in SansTables(tables, lo, d) ==> SansTables(tables, lo, d + 1) == SansTables(tables, lo, d)
  {
  }

  lemma TableOrder(v: nat, x: nat)
    requires v <= x
    ensures TableOf(v) <= TableOf(x)
  {
  }

  lemma TableEnds(end: nat, d: nat)
    requires end > 0
    ensures d * TABLE_PAGES < end <==> d <= TableOf(end - 1)
  {
  }

  lemma NoneLeft(s: Space, ptes: map<nat, Pte>)
    requires Covered(s) && (forall v: nat :: v in ptes ==> v in s.ptes && forall h: nat :: h < |s.vmas| ==>
               !InVma(s.vmas[h], v))
    ensures ptes == map[]
  {
    forall v: nat
      ensures v !in ptes
    {
      assert v in s.ptes ==> InSome(s.vmas, v);
    }
  }

  /** The tables left once the first `n` areas are done with. */
  ghost predicate TablesPast(s: Space, n: nat, tables: map<nat, nat>) {
    forall d: nat :: d in tables ==> d in s.tables && forall h: nat :: h < n && h < |s.vmas| ==> !Reaches(s.vmas[h], d)
  }

  lemma TablesAll(s: Space)
    ensures TablesPast(s, 0, s.tables)
  {
  }

  lemma PastNext(s: Space, n: nat, tables: map<nat, nat>)
    requires TablesPast(s, n, tables) && n < |s.vmas| && s.vmas[n].start < s.vmas[n].end
    ensures TablesPast(s, n + 1, SansTables(tables, TableOf(s.vmas[n].start), TableOf(s.vmas[n].end - 1) + 1))
  {
    hide TableOf;
  }

  lemma NoTableLeft(s: Space, tables: map<nat, nat>)
    requires Covered(s) && TablesPast(s, |s.vmas|, tables)
    ensures tables == map[]
  {
    forall d: nat
      ensures d !in tables
    {
      assert d in s.tables ==> SomeReaches(s.vmas, d);
    }
  }
}
