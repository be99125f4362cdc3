/**
 Demand paging with FIFO replacement for one address space: the physical frames
 are a cache over the swap disk, and together they behave as one flat memory.

 Page-table entries are the 32-bit words of the page table; the ghost `flat` is
 the memory the program believes it has.
 */
module Paging {
  import opened Options

  const PGSIZE: nat := 4096
  const NPTE: nat := 1024              // entries per page table

  type Page = s: seq<bv8> | |s| == 4096 witness seq(4096, _ => 0)

  // ----- page-table words -----

  /** `page2pa(page) | PTE_P | perm`, where perm is PTE_U, with PTE_W if writable. */
  function PresentPte(f: nat, writable: bool): (w: nat) {
    f * PGSIZE + 5 + if writable then 2 else 0
  }

  predicate IsPresent(w: nat) { w % 2 == 1 }
  function FrameOf(w: nat): nat { w / PGSIZE }
  predicate IsWritable(w: nat) { (w / 2) % 2 == 1 }

  /** The swap entry of a page: its slot number shifted past the flag bits. */
  function SwapEntry(v: nat): (w: nat) { (v + 1) * 256 }
  function SwapOffset(w: nat): nat { w / 256 }

  /** The three kinds of words never collide, and each decodes to what was encoded. */
  lemma Words(f: nat, writable: bool, v: nat)
    ensures var w := PresentPte(f, writable); IsPresent(w) && w != 0 && FrameOf(w) == f && (IsWritable(w) <==> writable)
    ensures var w := PresentPte(f, writable); w / 4096 == f && w % 4096 == if writable then 7 else 5
    ensures var e := SwapEntry(v); !IsPresent(e) && e != 0 && SwapOffset(e) == v + 1
    ensures var e := SwapEntry(v); e / 256 == v + 1 && e % 256 == 0
  {
  }

  // ----- virtual memory areas -----

  datatype Vma = Vma(start: nat, end: nat, read: bool, write: bool, exec: bool)

  predicate Contains(a: Vma, addr: nat) { a.start <= addr < a.end }

  /** Page aligned, non-empty, ascending and disjoint. */
  ghost predicate VmasOk(vmas: seq<Vma>) {
    && (forall i :: 0 <= i < |vmas| ==>
         vmas[i].start < vmas[i].end && vmas[i].start % PGSIZE == 0 && vmas[i].end % PGSIZE == 0)
    && (forall i, j :: 0 <= i < j < |vmas| ==> vmas[i].end <= vmas[j].start)
  }

  datatype Status = Ok | Inval | Panic

  /** The memory of one address space. */
  datatype Mem = Mem(
    tables: map<nat, nat>,       // page directory: index to the frame of its page table
    ptes: map<nat, nat>,         // the entries of those tables, by virtual page number
    frames: seq<Page>,           // physical memory
    free: set<nat>,
    fifo: seq<nat>,              // pra_list_head, newest first
    praVaddr: map<nat, nat>,     // frame to the address it is mapped at
    disk: map<nat, Page>,        // swap slots
    flat: map<nat, Page>,        // what the program believes
    clock: nat,
    since: map<nat, nat>)        // when each frame was mapped

  ghost predicate Mapped(m: Mem, v: nat, f: nat) {
    v in m.ptes && IsPresent(m.ptes[v]) && FrameOf(m.ptes[v]) == f
  }

  /** Every frame is free, a page table, mapped, or in the hands of the caller. */
  ghost predicate FramesOk(m: Mem, loose: set<nat>) {
    && (forall f: nat :: f in m.free || f in m.fifo || f in m.tables.Values || f in loose <==> f < |m.frames|)
    && (forall f: nat :: f in m.fifo ==> f !in m.free && f !in m.tables.Values && f !in loose)
    && m.free !! m.tables.Values && m.free !! loose && m.tables.Values !! loose
    && (forall d, e :: d in m.tables && e in m.tables && d != e ==> m.tables[d] != m.tables[e])
  }

  /** The list holds exactly the present pages and `pra_vaddr` leads back to each. */
  ghost predicate FifoOk(m: Mem) {
    && (forall i, j :: 0 <= i < j < |m.fifo| ==> m.fifo[i] != m.fifo[j])
    && (forall f: nat :: f in m.fifo ==>
         f in m.praVaddr && m.praVaddr[f] % PGSIZE == 0 && Mapped(m, m.praVaddr[f] / PGSIZE, f))
    && (forall v: nat, f: nat :: Mapped(m, v, f) ==> f in m.fifo && f in m.praVaddr && m.praVaddr[f] == v * PGSIZE)
  }

  /** The oldest page is last. */
  ghost predicate AgesOk(m: Mem) {
    && (forall f: nat :: f in m.fifo ==> f in m.since && m.since[f] < m.clock)
    && (forall i, j :: 0 <= i < j < |m.fifo| ==> m.since[m.fifo[j]] < m.since[m.fifo[i]])
  }

  /** Where the content of a page is. */
  ghost predicate Backed(m: Mem, v: nat) {
    && v in m.ptes && v in m.flat
    && (if IsPresent(m.ptes[v]) then FrameOf(m.ptes[v]) < |m.frames| && m.frames[FrameOf(m.ptes[v])] == m.flat[v]
        else m.ptes[v] == SwapEntry(v) && v + 1 in m.disk && m.disk[v + 1] == m.flat[v])
  }

  /** Every page is present, in its own swap slot, or untouched. */
  ghost predicate ContentOk(m: Mem) {
    && (forall v: nat :: v in m.flat ==> Backed(m, v))
    && (forall v: nat :: v in m.ptes && v !in m.flat ==> m.ptes[v] == 0)
    && (forall v: nat :: v in m.ptes ==> v / NPTE in m.tables)
  }

  /** Present pages have exactly the write permission of their area. */
  ghost predicate PermsOk(m: Mem, vmas: seq<Vma>) {
    forall v: nat, f: nat :: Mapped(m, v, f) ==>
      exists a :: a in vmas && Contains(a, v * PGSIZE) && a.write == IsWritable(m.ptes[v])
  }

  ghost predicate Inv(m: Mem, vmas: seq<Vma>, loose: set<nat>) {
    FramesOk(m, loose) && FifoOk(m) && AgesOk(m) && ContentOk(m) && PermsOk(m, vmas)
  }

  // ----- what the operations do to the memory -----

  predicate CanEvict(m: Mem) {
    m.fifo != [] && m.fifo[|m.fifo| - 1] in m.praVaddr && m.fifo[|m.fifo| - 1] < |m.frames|
  }

  /** The page mapped the longest goes to its own slot; its frame becomes free. */
  ghost function Evict(m: Mem): Mem
    requires CanEvict(m)
  {
    var f := m.fifo[|m.fifo| - 1];
    var v := m.praVaddr[f] / PGSIZE;
    m.(fifo := m.fifo[..|m.fifo| - 1], disk := m.disk[v + 1 := m.frames[f]],
       ptes := m.ptes[v := SwapEntry(v)], free := m.free + {f})
  }

  lemma EvictFacts(m: Mem, loose: set<nat>)
    requires FramesOk(m, loose) && FifoOk(m) && m.fifo != []
    ensures var f := m.fifo[|m.fifo| - 1];
            f in m.fifo && f < |m.frames| && f in m.praVaddr && Mapped(m, m.praVaddr[f] / PGSIZE, f)
                && f !in m.fifo[..|m.fifo| - 1]
    ensures forall g: nat :: g in m.fifo <==> g in m.fifo[..|m.fifo| - 1] || g == m.fifo[|m.fifo| - 1]
  {
    var n := |m.fifo| - 1;
    assert m.fifo == m.fifo[..n] + [m.fifo[n]];
  }

  lemma EvictKeepsFrames(m: Mem, loose: set<nat>)
    requires FramesOk(m, loose) && FifoOk(m) && m.fifo != []
    ensures CanEvict(m) && FramesOk(Evict(m), loose)
  {
    EvictFacts(m, loose);
  }

  lemma EvictMapped(m: Mem, loose: set<nat>, v: nat, g: nat)
    requires FramesOk(m, loose) && FifoOk(m) && m.fifo != []
    ensures CanEvict(m) && (Mapped(Evict(m), v, g) <==> Mapped(m, v, g) && g != m.fifo[|m.fifo| - 1])
  {
    EvictFacts(m, loose);
    var f := m.fifo[|m.fifo| - 1];
    Words(f, true, m.praVaddr[f] / PGSIZE);
    assert Mapped(m, v, f) ==> m.praVaddr[f] == v * PGSIZE;
  }

  lemma EvictKeepsFifo(m: Mem, loose: set<nat>)
    requires FramesOk(m, loose) && FifoOk(m) && AgesOk(m) && m.fifo != []
    ensures CanEvict(m) && FifoOk(Evict(m)) && AgesOk(Evict(m))
  {
    EvictFacts(m, loose);
    forall v: nat, g: nat
      ensures Mapped(Evict(m), v, g) <==> Mapped(m, v, g) && g != m.fifo[|m.fifo| - 1]
    {
      EvictMapped(m, loose, v, g);
    }
  }

  lemma EvictKeepsContent(m: Mem, loose: set<nat>)
    requires FramesOk(m, loose) && FifoOk(m) && ContentOk(m) && m.fifo != []
    ensures CanEvict(m) && ContentOk(Evict(m))
  {
    EvictFacts(m, loose);
    var f := m.fifo[|m.fifo| - 1];
    var v := m.praVaddr[f] / PGSIZE;
    EvictContent(m, f, v);
  }

  lemma EvictContent(m: Mem, f: nat, v: nat)
    requires ContentOk(m) && CanEvict(m) && f == m.fifo[|m.fifo| - 1] && v == m.praVaddr[f] / PGSIZE && Mapped(m, v, f)
    ensures ContentOk(Evict(m))
  {
    hide IsPresent, FrameOf, SwapEntry;
    Words(f, true, v);
    PresentNotZero(m.ptes[v]);
    assert v in m.flat;
    forall u: nat | u in m.flat
      ensures Backed(Evict(m), u)
    {
      assert Backed(m, u);
    }
  }

  lemma PresentNotZero(w: nat)
    requires IsPresent(w)
    ensures w != 0
  {
  }

  lemma EvictKeepsPerms(m: Mem, loose: set<nat>, vmas: seq<Vma>)
    requires FramesOk(m, loose) && FifoOk(m) && PermsOk(m, vmas) && m.fifo != []
    ensures CanEvict(m) && PermsOk(Evict(m), vmas)
  {
    EvictFacts(m, loose);
    forall v: nat, g: nat | Mapped(Evict(m), v, g)
      ensures exists a :: a in vmas && Contains(a, v * PGSIZE) && a.write == IsWritable(Evict(m).ptes[v])
    {
      EvictMapped(m, loose, v, g);
      assert Mapped(m, v, g);
    }
  }

  /** A free frame passes to the caller. */
  ghost function TakeFrame(m: Mem, f: nat): Mem {
    m.(free := m.free - {f})
  }

  lemma TakeKeeps(m: Mem, vmas: seq<Vma>, loose: set<nat>, f: nat)
    requires Inv(m, vmas, loose) && f in m.free
    ensures Inv(TakeFrame(m, f), vmas, loose + {f})
  {
    var r := TakeFrame(m, f);
    assert forall v: nat, g: nat :: Mapped(r, v, g) <==> Mapped(m, v, g);
    assert forall v: nat :: v in m.flat ==> Backed(m, v) && Backed(r, v);
  }

  /** A loose frame becomes the (zeroed) page table of directory entry `d`. */
  ghost function AddTable(m: Mem, d: nat, f: nat): Mem {
    m.(tables := m.tables[d := f])
  }

  lemma AddTableKeeps(m: Mem, vmas: seq<Vma>, loose: set<nat>, d: nat, f: nat)
    requires Inv(m, vmas, loose + {f}) && f !in loose && d !in m.tables
    ensures Inv(AddTable(m, d, f), vmas, loose)
  {
    hide FramesOk, IsPresent, IsWritable, FrameOf, SwapEntry;
    var r := AddTable(m, d, f);
    AddTableFrames(m, loose, d, f);
    assert forall v: nat, g: nat :: Mapped(r, v, g) <==> Mapped(m, v, g);
    assert forall v: nat :: v in m.flat ==> Backed(m, v) && Backed(r, v);
  }

  lemma AddTableFrames(m: Mem, loose: set<nat>, d: nat, f: nat)
    requires FramesOk(m, loose + {f}) && f !in loose && d !in m.tables
    ensures FramesOk(AddTable(m, d, f), loose)
  {
    var r := AddTable(m, d, f);
    assert r.tables.Values == m.tables.Values + {f} by {
      assert forall e :: e in m.tables ==> r.tables[e] == m.tables[e];
      assert d in r.tables;
    }
  }

  /** A loose frame holding `page` is mapped at `v` and joins the list as the newest. */
  ghost function MapPage(m: Mem, v: nat, f: nat, page: Page, writable: bool): Mem
    requires f < |m.frames|
  {
    m.(ptes := m.ptes[v := PresentPte(f, writable)], frames := m.frames[f := page], fifo := [f] + m.fifo,
       praVaddr := m.praVaddr[f := v * PGSIZE], flat := m.flat[v := page],
       since := m.since[f := m.clock], clock := m.clock + 1)
  }

  /** What the fault handler knows when it maps `v`: the page is not present, its
      table exists, and a page that was swapped out is brought back as it was. */
  ghost predicate CanMap(m: Mem, loose: set<nat>, v: nat, f: nat, page: Page) {
    && f in loose && FramesOk(m, loose) && f < |m.frames| && v / NPTE in m.tables
    && (v in m.ptes ==> !IsPresent(m.ptes[v]))
    && (v in m.flat ==> m.flat[v] == page)
  }

  lemma MapMapped(m: Mem, loose: set<nat>, v: nat, f: nat, page: Page, w: bool, u: nat, g: nat)
    requires CanMap(m, loose, v, f, page) && FifoOk(m)
    ensures Mapped(MapPage(m, v, f, page, w), u, g) <==> (u == v && g == f) || Mapped(m, u, g)
    ensures Mapped(m, u, g) ==> u != v && g != f
  {
    Words(f, w, v);
  }

  lemma MapKeepsFrames(m: Mem, loose: set<nat>, v: nat, f: nat, page: Page, w: bool)
    requires CanMap(m, loose, v, f, page)
    ensures FramesOk(MapPage(m, v, f, page, w), loose - {f})
  {
    assert forall g: nat :: g in [f] + m.fifo <==> g == f || g in m.fifo;
  }

  lemma MapKeepsFifo(m: Mem, loose: set<nat>, v: nat, f: nat, page: Page, w: bool)
    requires CanMap(m, loose, v, f, page) && FifoOk(m)
    ensures FifoOk(MapPage(m, v, f, page, w))
  {
    var r := MapPage(m, v, f, page, w);
    assert forall g: nat :: g in r.fifo <==> g == f || g in m.fifo;
    forall u: nat, g: nat
      ensures Mapped(r, u, g) <==> (u == v && g == f) || Mapped(m, u, g)
    {
      MapMapped(m, loose, v, f, page, w, u, g);
    }
  }

  lemma MapKeepsAges(m: Mem, loose: set<nat>, v: nat, f: nat, page: Page, w: bool)
    requires CanMap(m, loose, v, f, page) && AgesOk(m)
    ensures AgesOk(MapPage(m, v, f, page, w))
  {
    var r := MapPage(m, v, f, page, w);
    assert forall g: nat :: g in r.fifo <==> g == f || g in m.fifo;
    forall i, j | 0 <= i < j < |r.fifo|
      ensures r.since[r.fifo[j]] < r.since[r.fifo[i]]
    {
      assert r.fifo[j] == m.fifo[j - 1] && m.fifo[j - 1] in m.fifo;
      if i > 0 {
        assert r.fifo[i] == m.fifo[i - 1] && m.fifo[i - 1] in m.fifo;
      }
    }
  }

  lemma MapKeepsContent(m: Mem, loose: set<nat>, v: nat, f: nat, page: Page, w: bool)
    requires CanMap(m, loose, v, f, page) && FifoOk(m) && ContentOk(m)
    ensures ContentOk(MapPage(m, v, f, page, w))
  {
    var r := MapPage(m, v, f, page, w);
    Words(f, w, v);
    forall u: nat | u in r.flat
      ensures Backed(r, u)
    {
      if u != v {
        assert Backed(m, u);
        if IsPresent(m.ptes[u]) {
          assert Mapped(m, u, FrameOf(m.ptes[u]));
          MapMapped(m, loose, v, f, page, w, u, FrameOf(m.ptes[u]));
        }
      }
    }
  }

  lemma MapKeepsPerms(m: Mem, loose: set<nat>, v: nat, f: nat, page: Page, vmas: seq<Vma>, a: Vma)
    requires CanMap(m, loose, v, f, page) && FifoOk(m) && PermsOk(m, vmas) && a in vmas && Contains(a, v * PGSIZE)
    ensures PermsOk(MapPage(m, v, f, page, a.write), vmas)
  {
    var r := MapPage(m, v, f, page, a.write);
    Words(f, a.write, v);
    forall u: nat, g: nat | Mapped(r, u, g)
      ensures exists b :: b in vmas && Contains(b, u * PGSIZE) && b.write == IsWritable(r.ptes[u])
    {
      MapMapped(m, loose, v, f, page, a.write, u, g);
      if u == v {
        assert a in vmas && Contains(a, u * PGSIZE) && a.write == IsWritable(r.ptes[u]);
      } else {
        assert Mapped(m, u, g);
      }
    }
  }

  lemma MapKeeps(m: Mem, loose: set<nat>, v: nat, f: nat, page: Page, vmas: seq<Vma>, a: Vma)
    requires Inv(m, vmas, loose) && CanMap(m, loose, v, f, page) && a in vmas && Contains(a, v * PGSIZE)
    ensures Inv(MapPage(m, v, f, page, a.write), vmas, loose - {f})
  {
    MapKeepsFrames(m, loose, v, f, page, a.write);
    MapKeepsFifo(m, loose, v, f, page, a.write);
    MapKeepsAges(m, loose, v, f, page, a.write);
    MapKeepsContent(m, loose, v, f, page, a.write);
    MapKeepsPerms(m, loose, v, f, page, vmas, a);
  }

  lemma EvictKeeps(m: Mem, vmas: seq<Vma>, loose: set<nat>)
    requires Inv(m, vmas, loose) && m.fifo != []
    ensures CanEvict(m) && Inv(Evict(m), vmas, loose)
  {
    EvictKeepsFrames(m, loose);
    EvictKeepsFifo(m, loose);
    EvictKeepsContent(m, loose);
    EvictKeepsPerms(m, loose, vmas);
  }

  /** The victim is the page that has been mapped the longest. */
  lemma EvictsOldest(m: Mem, vmas: seq<Vma>, loose: set<nat>)
    requires Inv(m, vmas, loose) && m.fifo != []
    ensures var f := m.fifo[|m.fifo| - 1]; f in m.since && forall g: nat :: g in m.fifo ==>
              g in m.since && m.since[f] <= m.since[g]
  {
    var n := |m.fifo| - 1;
    assert m.fifo[n] in m.fifo;
  }

  /** A store into a present page. */
  ghost function Store(m: Mem, v: nat, f: nat, off: nat, b: bv8): Mem
    requires f < |m.frames| && off < PGSIZE && v in m.flat
  {
    m.(frames := m.frames[f := m.frames[f][off := b]], flat := m.flat[v := m.flat[v][off := b]])
  }

  lemma StoreKeeps(m: Mem, vmas: seq<Vma>, v: nat, f: nat, off: nat, b: bv8)
    requires Inv(m, vmas, {}) && Mapped(m, v, f) && off < PGSIZE
    ensures f < |m.frames| && v in m.flat && Inv(Store(m, v, f, off, b), vmas, {})
  {
    assert f in m.fifo;
    var r := Store(m, v, f, off, b);
    assert forall u: nat, g: nat :: Mapped(r, u, g) <==> Mapped(m, u, g);
    forall u: nat | u in r.flat
      ensures Backed(r, u)
    {
      assert Backed(m, u);
      if u != v && IsPresent(m.ptes[u]) {
        assert Mapped(m, u, FrameOf(m.ptes[u]));
      }
    }
  }

  // ----- faults -----

  /** Is an access of this kind to `addr` allowed by its area? */
  ghost predicate Allowed(vmas: seq<Vma>, addr: nat, write: bool) {
    exists a :: a in vmas && Contains(a, addr) && (if write then a.write else a.read || a.exec)
  }

  /** Areas are page aligned and disjoint, so all of a page has the same area. */
  lemma SameArea(vmas: seq<Vma>, addr: nat, a: Vma, b: Vma)
    requires VmasOk(vmas) && a in vmas && b in vmas && Contains(a, addr) && Contains(b, addr / PGSIZE * PGSIZE)
    ensures a == b
  {
    var i :| 0 <= i < |vmas| && vmas[i] == a;
    var j :| 0 <= j < |vmas| && vmas[j] == b;
    assert i == j;
  }

  lemma SameAreaAll(vmas: seq<Vma>, addr: nat, a: Vma)
    requires VmasOk(vmas) && a in vmas && Contains(a, addr)
    ensures forall b :: b in vmas && Contains(b, addr) ==> b == a
  {
    forall b | b in vmas && Contains(b, addr)
      ensures b == a
    {
      AreaOfPage(vmas, addr, b);
      SameArea(vmas, addr, a, b);
    }
  }

  lemma AreaOfPage(vmas: seq<Vma>, addr: nat, a: Vma)
    requires VmasOk(vmas) && a in vmas && Contains(a, addr)
    ensures Contains(a, addr / PGSIZE * PGSIZE)
  {
  }

  /** Swapped-out pages have slots on the swap disk. */
  ghost predicate SlotsOk(ptes: map<nat, nat>, max: nat) {
    forall v: nat :: v in ptes && ptes[v] != 0 && !IsPresent(ptes[v]) ==> v + 1 < max
  }

  /** The flat memory has gained at most page `v`, and nothing it had has changed. */
  ghost predicate Grown(before: map<nat, Page>, after: map<nat, Page>, v: nat) {
    after.Keys == before.Keys + {v} && forall u: nat :: u in before ==> u in after && after[u] == before[u]
  }

  ghost function ByteAt(flat: map<nat, Page>, addr: nat): Option<bv8> {
    if addr / PGSIZE in flat then Some(flat[addr / PGSIZE][addr % PGSIZE]) else None
  }

  /** The flat memory after one byte is stored; a first touch brings the rest of the
      page in with whatever its frame held. */
  ghost predicate Wrote(before: map<nat, Page>, after: map<nat, Page>, addr: nat, b: bv8) {
    && ByteAt(after, addr) == Some(b)
    && forall x: nat :: x != addr && ByteAt(before, x).Some? ==> ByteAt(after, x) == ByteAt(before, x)
  }

  // ----- which accesses succeed -----

  /** What decides the outcome of an access: how many frames are free, which page tables there are, and
      the pages in memory, newest first. */
  datatype Pager = Pager(free: nat, tables: set<nat>, queue: seq<nat>)

  ghost function PageIn(m: Mem, i: nat): nat
    requires i < |m.fifo|
  {
    if m.fifo[i] in m.praVaddr then m.praVaddr[m.fifo[i]] / PGSIZE else 0
  }

  ghost function PagerOf(m: Mem): Pager {
    Pager(|m.free|, m.tables.Keys, seq(|m.fifo|, i requires 0 <= i < |m.fifo| => PageIn(m, i)))
  }

  /** A frame is free, or the oldest page has a slot on a swap disk of `max` slots. */
  predicate HasFrame(p: Pager, max: nat) {
    p.free > 0 || (p.queue != [] && p.queue[|p.queue| - 1] + 1 < max)
  }

  /** A frame has been handed out, the oldest page evicted if need be. */
  function Handed(p: Pager): Pager
    requires p.free > 0 || p.queue != []
  {
    if p.free > 0 then p.(free := p.free - 1) else p.(queue := p.queue[..|p.queue| - 1])
  }

  /** A page table for page `v`, if it is missing and a frame can be had. */
  function Tabled(p: Pager, max: nat, v: nat): Option<Pager> {
    if v / NPTE in p.tables then Some(p)
    else if HasFrame(p, max) then Some(Handed(p).(tables := p.tables + {v / NPTE}))
    else None
  }

  /** A frame for page `v`, if one can be had. */
  function Seated(p: Pager, max: nat, v: nat): Option<Pager> {
    if HasFrame(p, max) then Some(Handed(p).(queue := [v] + Handed(p).queue)) else None
  }

  /** Page `v` comes in: its table first. */
  function Faulted(p: Pager, max: nat, v: nat): Option<Pager> {
    var t := Tabled(p, max, v);
    if t.None? then None else Seated(t.value, max, v)
  }

  /** `k` frames can be had: the free ones, and those of the oldest pages, if they have slots. */
  ghost predicate CanGet(p: Pager, max: nat, k: nat) {
    || k <= p.free
    || (k - p.free <= |p.queue| && forall i :: |p.queue| - (k - p.free) <= i < |p.queue| ==> p.queue[i] + 1 < max)
  }

  /** A fault is served exactly when the frames for the page and for a missing table can be had. */
  lemma FaultNeeds(p: Pager, max: nat, v: nat)
    ensures Faulted(p, max, v).Some? <==> CanGet(p, max, if v / 1024 in p.tables then 1 else 2)
  {
  }

  ghost predicate Permitted(p: Pager, vmas: seq<Vma>, op: Op) {
    || Allowed(vmas, op.addr, op.Write?)
    || (op.Read? && op.addr / PGSIZE in p.queue)
  }

  /** What becomes of an access. */
  ghost function Outcome(p: Pager, vmas: seq<Vma>, max: nat, op: Op): Status {
    if !Permitted(p, vmas, op) then Inval
    else if op.addr / PGSIZE in p.queue || Faulted(p, max, op.addr / PGSIZE).Some? then Ok
    else Panic
  }

  ghost function Next(p: Pager, vmas: seq<Vma>, max: nat, op: Op): Pager {
    var v := op.addr / PGSIZE;
    if Outcome(p, vmas, max, op) != Ok || v in p.queue || Faulted(p, max, v).None? then p
    else Faulted(p, max, v).value
  }

  /** The outcomes of a run, which ends before the first panic. */
  ghost function Outcomes(p: Pager, vmas: seq<Vma>, max: nat, ops: seq<Op>): seq<Status>
    decreases |ops|
  {
    if ops == [] || Outcome(p, vmas, max, ops[0]) == Panic then []
    else [Outcome(p, vmas, max, ops[0])] + Outcomes(Next(p, vmas, max, ops[0]), vmas, max, ops[1..])
  }

  /** The tables there may be, a frame more than that, and slots for all pages in memory. */
  ghost predicate Ample(p: Pager, max: nat, all: set<nat>) {
    && p.tables <= all && |all| < p.free + |p.tables| + |p.queue|
    && forall i: nat :: i < |p.queue| ==> p.queue[i] + 1 < max
  }

  lemma AmpleServes(p: Pager, max: nat, all: set<nat>, v: nat)
    requires Ample(p, max, all) && v / NPTE in all && v + 1 < max
    ensures Faulted(p, max, v).Some? && Ample(Faulted(p, max, v).value, max, all)
  {
    hide Tabled, Seated;
    AmpleTable(p, max, all, v);
    AmpleSeat(Tabled(p, max, v).value, max, all, v);
  }

  /** With no more tables than there may be, a frame is left beside them. */
  lemma FewerTables(tables: set<nat>, all: set<nat>, d: nat)
    requires tables <= all && d in all
    ensures |tables + {d}| <= |all| && |tables + {d}| == |tables| + if d in tables then 0 else 1
  {
    var t := tables + {d};
    assert all == t + (all - t);
    assert d in tables ==> t == tables;
  }

  lemma AmpleTable(p: Pager, max: nat, all: set<nat>, v: nat)
    requires Ample(p, max, all) && v / NPTE in all
    ensures Tabled(p, max, v).Some? && Ample(Tabled(p, max, v).value, max, all)
  {
    FewerTables(p.tables, all, v / NPTE);
  }

  lemma AmpleSeat(p: Pager, max: nat, all: set<nat>, v: nat)
    requires Ample(p, max, all) && v + 1 < max && v / NPTE in all
    ensures Seated(p, max, v).Some? && Ample(Seated(p, max, v).value, max, all)
  {
    FewerTables(p.tables, all, v / NPTE);
  }

  /** With one frame more than the page tables a program needs, and slots for its pages, no access panics. */
  lemma {:induction false} NeverPanics(p: Pager, vmas: seq<Vma>, max: nat, ops: seq<Op>, all: set<nat>)
    requires Ample(p, max, all)
    requires forall i: nat :: i < |ops| ==> ops[i].addr / PGSIZE / NPTE in all && ops[i].addr / PGSIZE + 1 < max
    ensures |Outcomes(p, vmas, max, ops)| == |ops|
    decreases |ops|
  {
    if ops != [] {
      var op := ops[0];
      assert ops[0].addr / PGSIZE / NPTE in all;
      AmpleServes(p, max, all, op.addr / PGSIZE);
      hide Ample, Faulted, Permitted;
      forall i: nat | i < |ops[1..]|
        ensures ops[1..][i].addr / PGSIZE / NPTE in all && ops[1..][i].addr / PGSIZE + 1 < max
      {
        assert ops[1..][i] == ops[i + 1];
      }
      NeverPanics(Next(p, vmas, max, op), vmas, max, ops[1..], all);
    }
  }

  lemma EvictPager(m: Mem, loose: set<nat>)
    requires FramesOk(m, loose) && FifoOk(m) && m.fifo != []
    ensures CanEvict(m)
    ensures var p := PagerOf(m); PagerOf(Evict(m)) == p.(free := p.free + 1, queue := p.queue[..|p.queue| - 1])
  {
    EvictFacts(m, loose);
    var p, q, n := PagerOf(m), PagerOf(Evict(m)), |m.fifo| - 1;
    assert |Evict(m).free| == |m.free| + 1;
    assert q.queue == p.queue[..n];
  }

  lemma TakePager(m: Mem, f: nat)
    requires f in m.free
    ensures var p := PagerOf(m); p.free > 0 && PagerOf(TakeFrame(m, f)) == p.(free := p.free - 1)
  {
    assert m.free == m.free - {f} + {f};
    assert PagerOf(TakeFrame(m, f)).queue == PagerOf(m).queue;
  }

  lemma FramesToHave(m: Mem, max: nat)
    requires FifoOk(m)
    ensures HasFrame(PagerOf(m), max) <==>
              m.free != {} || (m.fifo != [] && m.fifo[|m.fifo| - 1] in m.praVaddr
                               && m.praVaddr[m.fifo[|m.fifo| - 1]] / PGSIZE + 1 < max)
    ensures PagerOf(m).free > 0 <==> m.free != {}
    ensures PagerOf(m).queue != [] <==> m.fifo != []
  {
    var p := PagerOf(m);
    if m.fifo != [] {
      assert m.fifo[|m.fifo| - 1] in m.fifo;
      assert p.queue[|p.queue| - 1] == PageIn(m, |m.fifo| - 1);
    }
  }

  lemma TablesThere(m: Mem)
    ensures PagerOf(m).tables == m.tables.Keys
  {
  }

  lemma TablePager(m: Mem, d: nat, f: nat)
    ensures var p := PagerOf(m); PagerOf(AddTable(m, d, f)) == p.(tables := p.tables + {d})
  {
    assert PagerOf(AddTable(m, d, f)).queue == PagerOf(m).queue;
  }

  lemma MapPager(m: Mem, loose: set<nat>, v: nat, f: nat, page: Page, w: bool)
    requires f in loose && FramesOk(m, loose) && f < |m.frames|
    ensures var p := PagerOf(m); PagerOf(MapPage(m, v, f, page, w)) == p.(queue := [v] + p.queue)
  {
    var p, q := PagerOf(m), PagerOf(MapPage(m, v, f, page, w));
    forall i: nat | i < |q.queue|
      ensures q.queue[i] == ([v] + p.queue)[i]
    {
      if i > 0 {
        assert m.fifo[i - 1] in m.fifo;
      }
    }
    assert q.queue == [v] + p.queue;
  }

  lemma StorePager(m: Mem, v: nat, f: nat, off: nat, b: bv8)
    requires f < |m.frames| && off < PGSIZE && v in m.flat
    ensures PagerOf(Store(m, v, f, off, b)) == PagerOf(m)
  {
    assert PagerOf(Store(m, v, f, off, b)).queue == PagerOf(m).queue;
  }

  /** The queue holds exactly the present pages. */
  lemma QueuePresent(m: Mem, v: nat)
    requires FifoOk(m)
    ensures v in PagerOf(m).queue <==> v in m.ptes && IsPresent(m.ptes[v])
  {
    var q := PagerOf(m).queue;
    if v in q {
      var i: nat :| i < |q| && q[i] == v;
      assert m.fifo[i] in m.fifo;
    }
    if v in m.ptes && IsPresent(m.ptes[v]) {
      assert Mapped(m, v, FrameOf(m.ptes[v]));
      var i: nat :| i < |m.fifo| && m.fifo[i] == FrameOf(m.ptes[v]);
      assert q[i] == v;
    }
  }

  function AllFrames(n: nat): (s: set<nat>)
    ensures forall f: nat :: f in s <==> f < n
  {
    if n == 0 then {} else AllFrames(n - 1) + {n - 1}
  }

  datatype Op = Read(addr: nat) | Write(addr: nat, b: bv8)
  datatype Reply = Reply(status: Status, b: bv8)

  /** The value last stored at `addr`, or seen there by a load, by the operations answered so far. */
  ghost function LastSeen(ops: seq<Op>, res: seq<Reply>, addr: nat): Option<bv8>
    requires |res| <= |ops|
  {
    if res == [] then None
    else
      var k := |res| - 1;
      if ops[k].addr == addr && res[k].status == Ok then Some(if ops[k].Write? then ops[k].b else res[k].b)
      else LastSeen(ops, res[..k], addr)
  }

  /** One more operation keeps every byte at the value last stored or seen. */
  lemma LastSeenStep(ops: seq<Op>, done: seq<Reply>, reply: Reply, was: map<nat, Page>, now: map<nat, Page>)
    requires |done| < |ops|
    requires forall addr: nat :: LastSeen(ops, done, addr).Some? ==> ByteAt(was, addr) == LastSeen(ops, done, addr)
    requires var op := ops[|done|];
             if reply.status != Ok then now == was
             else if op.Read? then Grown(was, now, op.addr / PGSIZE) && ByteAt(now, op.addr) == Some(reply.b)
             else Wrote(was, now, op.addr, op.b)
    ensures forall addr: nat :: LastSeen(ops, done + [reply], addr).Some? ==>
              ByteAt(now, addr) == LastSeen(ops, done + [reply], addr)
  {
    forall addr: nat | LastSeen(ops, done + [reply], addr).Some?
      ensures ByteAt(now, addr) == LastSeen(ops, done + [reply], addr)
    {
      assert (done + [reply])[..|done|] == done;
    }
  }

  class Mm {
    var vmas: seq<Vma>
    var mmapCache: Option<Vma>
    var tables: map<nat, nat>
    var ptes: map<nat, nat>
    var frames: seq<Page>
    var free: set<nat>
    var fifo: seq<nat>
    var praVaddr: map<nat, nat>
    var disk: map<nat, Page>
    const maxSwapOffset: nat
    ghost var flat: map<nat, Page>
    ghost var clock: nat
    ghost var since: map<nat, nat>

    ghost function View(): Mem
      reads this
    {
      Mem(tables, ptes, frames, free, fifo, praVaddr, disk, flat, clock, since)
    }

    ghost function Pages(): Pager
      reads this
    {
      PagerOf(View())
    }

    ghost predicate Valid(loose: set<nat>)
      reads this
    {
      && Inv(View(), vmas, loose)
      && VmasOk(vmas) && (mmapCache.Some? ==> mmapCache.value in vmas)
      && SlotsOk(ptes, maxSwapOffset)
    }

    /** There is a page to evict, and its slot is on the swap disk. */
    ghost predicate CanSwapOut()
      reads this
    {
      && fifo != [] && fifo[|fifo| - 1] in praVaddr
      && praVaddr[fifo[|fifo| - 1]] / PGSIZE + 1 < maxSwapOffset
    }

    /** `find_vma`: through the cached area or by a scan, the area that holds `addr`. */
    method FindVma(addr: nat) returns (r: Option<Vma>)
      requires VmasOk(vmas) && (mmapCache.Some? ==> mmapCache.value in vmas)
      modifies this`mmapCache
      ensures mmapCache.Some? ==> mmapCache.value in vmas
      ensures r.Some? ==> r.value in vmas && Contains(r.value, addr)
      ensures r.None? ==> forall a :: a in vmas ==> !Contains(a, addr)
    {
      if mmapCache.Some? && Contains(mmapCache.value, addr) {
        return mmapCache;
      }
      var i := 0;
      while i < |vmas|
        invariant 0 <= i <= |vmas|
        invariant forall k :: 0 <= k < i ==> !Contains(vmas[k], addr)
      {
        if Contains(vmas[i], addr) {
          mmapCache := Some(vmas[i]);
          return mmapCache;
        }
        i := i + 1;
      }
      return None;
    }

    /** One round of `swap_out`.  It fails where the source panics: with nothing to
        evict, or with a slot beyond the swap disk. */
    method SwapOut(ghost loose: set<nat>) returns (ok: bool)
      requires Valid(loose)
      modifies this`fifo, this`ptes, this`disk, this`free
      ensures Valid(loose)
      ensures ok <==> old(CanSwapOut())
      ensures ok ==> CanEvict(old(View())) && View() == Evict(old(View()))
      ensures !ok ==> View() == old(View())
    {
      hide FramesOk, FifoOk, AgesOk, ContentOk, PermsOk;
      if |fifo| == 0 {
        return false;
      }
      EvictFacts(View(), loose);
      EvictKeeps(View(), vmas, loose);
      var f := fifo[|fifo| - 1];
      var v := praVaddr[f] / PGSIZE;
      var entry := SwapEntry(v);
      Words(f, true, v);
      if SwapOffset(entry) >= maxSwapOffset {
        return false;
      }
      fifo := fifo[..|fifo| - 1];
      disk := disk[SwapOffset(entry) := frames[f]];
      ptes := ptes[v := entry];
      free := free + {f};
      return true;
    }
 
    /** An eviction changes neither the directory, the frames, the flat memory nor
        the entry of a page that is not present. */
    ghost predicate OnlyEvicted(before: Mem)
      reads this
    {
      && tables == before.tables && frames == before.frames && flat == before.flat
      && (forall u: nat :: !(u in before.ptes && IsPresent(before.ptes[u])) ==>
            (u in ptes <==> u in before.ptes) && (u in ptes ==> ptes[u] == before.ptes[u]))
    }

    /** `alloc_pages(1)`: a frame, evicting a page if none is free. */
    method AllocPage(ghost loose: set<nat>) returns (ok: bool, f: nat)
      requires Valid(loose)
      modifies this`fifo, this`ptes, this`disk, this`free
      ensures OnlyEvicted(old(View()))
      ensures if ok then f !in loose && f < |frames| && Valid(loose + {f}) else Valid(loose)
      ensures ok <==> old(free) != {} || old(CanSwapOut())
      ensures ok <==> HasFrame(old(Pages()), maxSwapOffset)
      ensures ok ==> (old(Pages()).free > 0 || old(Pages()).queue != []) && Pages() == Handed(old(Pages()))
      ensures !ok ==> free == {} && !CanSwapOut() && View() == old(View())
    {
      hide FramesOk, FifoOk, AgesOk, ContentOk, PermsOk, PagerOf, HasFrame;
      f := 0;
      ghost var before := View();
      FramesToHave(before, maxSwapOffset);
      if free == {} {
        ok := SwapOut(loose);
        if !ok {
          return;
        }
        EvictTouchesPresent(before, vmas, loose);
        EvictPager(before, loose);
      }
      f :| f in free;
      TakeFacts(View(), vmas, loose, f);
      TakeKeeps(View(), vmas, loose, f);
      TakePager(View(), f);
      free := free - {f};
      return true, f;
    }

    /** `get_pte` with `create`: afterwards the page table of `v` exists. */
    method GetPte(v: nat) returns (ok: bool)
      requires Valid({})
      modifies this`tables, this`fifo, this`ptes, this`disk, this`free
      ensures Valid({})
      ensures frames == old(frames) && flat == old(flat)
      ensures !(v in old(ptes) && IsPresent(old(ptes)[v])) ==>
                (v in ptes <==> v in old(ptes)) && (v in ptes ==> ptes[v] == old(ptes)[v])
      ensures ok ==> v / NPTE in tables
      ensures ok <==> Tabled(old(Pages()), maxSwapOffset, v).Some?
      ensures ok ==> Some(Pages()) == Tabled(old(Pages()), maxSwapOffset, v)
      ensures !ok ==> free == {} && !CanSwapOut() && View() == old(View())
    {
      hide FramesOk, FifoOk, AgesOk, ContentOk, PermsOk, PagerOf, HasFrame;
      TablesThere(View());
      if v / NPTE !in tables {
        var f;
        ok, f := AllocPage({});
        if !ok {
          return;
        }
        assert {} + {f} == {f};
        AddTableKeeps(View(), vmas, {}, v / NPTE, f);
        TablePager(View(), v / NPTE, f);
        tables := tables[v / NPTE := f];
      }
      return true;
    }

    /** `page_insert` of frame `f`, with the two statements that make the page swappable. */
    method Install(v: nat, f: nat, page: Page, writable: bool)
      requires f < |frames|
      modifies this`ptes, this`frames, this`fifo, this`praVaddr, this`flat, this`since, this`clock
      ensures View() == MapPage(old(View()), v, f, page, writable)
    {
      frames := frames[f := page];
      ptes := ptes[v := PresentPte(f, writable)];
      fifo := [f] + fifo;
      praVaddr := praVaddr[f := v * PGSIZE];
      flat := flat[v := page];
      since := since[f := clock];
      clock := clock + 1;
    }

    ghost predicate Present(v: nat)
      reads this
    {
      v in ptes && IsPresent(ptes[v])
    }

    /** Brings page `v`, whose table exists, into a frame: fresh if untouched,
        otherwise from its slot. */
    method BringIn(v: nat, a: Vma) returns (ok: bool)
      requires Valid({}) && a in vmas && Contains(a, v * PGSIZE) && v / NPTE in tables && !Present(v)
      modifies this
      ensures Valid({}) && vmas == old(vmas) && mmapCache == old(mmapCache)
      ensures ok ==> Present(v) && IsWritable(ptes[v]) == a.write && Grown(old(flat), flat, v)
      ensures ok <==> Seated(old(Pages()), maxSwapOffset, v).Some?
      ensures ok ==> Some(Pages()) == Seated(old(Pages()), maxSwapOffset, v)
      ensures !ok ==> flat == old(flat) && free == {} && !CanSwapOut()
    {
      hide FramesOk, FifoOk, AgesOk, ContentOk, PermsOk, SlotsOk, VmasOk, PagerOf;
      var f;
      ok, f := AllocPage({});
      if !ok {
        return;
      }
      assert {} + {f} == {f};
      var page := if v in ptes && ptes[v] != 0 then SwappedPage(v, f) else frames[f];
      Words(f, a.write, v);
      if !(v in ptes && ptes[v] != 0) {
        BringInFacts(View(), vmas, v, f);
      }
      MapKeeps(View(), {f}, v, f, page, vmas, a);
      MapPager(View(), {f}, v, f, page, a.write);
      assert {f} - {f} == {};
      SlotsAfterMap(ptes, maxSwapOffset, v, f, a.write);
      Install(v, f, page, a.write);
    }

    /** `swapfs_read` through the page's own entry; the entry is in range. */
    function SwappedPage(v: nat, ghost f: nat): (page: Page)
      reads this
      requires Valid({f}) && v in ptes && ptes[v] != 0 && !IsPresent(ptes[v])
      ensures v in flat && page == flat[v] && SwapOffset(ptes[v]) < maxSwapOffset
    {
      SwappedBacked(View(), vmas, {f}, v);
      Words(0, true, v);
      disk[SwapOffset(ptes[v])]
    }

    /** What the processor puts into the error code: bit 0 for a present page, bit 1
        for a write; a present page faults only on a write it does not allow. */
    ghost predicate FaultCode(error: nat, addr: nat)
      reads this
    {
      var v := addr / PGSIZE;
      && (error % 2 == 1 <==> Present(v))
      && (error % 4 == 3 ==> !IsWritable(ptes[v]))
    }

    /** The second half of `do_pgfault`: an access the area allows brings its page in. */
    method Serve(v: nat, a: Vma) returns (ok: bool)
      requires Valid({}) && a in vmas && Contains(a, v * PGSIZE) && !Present(v)
      modifies this
      ensures Valid({}) && vmas == old(vmas)
      ensures ok ==> Present(v) && IsWritable(ptes[v]) == a.write && Grown(old(flat), flat, v)
      ensures ok <==> Faulted(old(Pages()), maxSwapOffset, v).Some?
      ensures ok ==> Some(Pages()) == Faulted(old(Pages()), maxSwapOffset, v)
      ensures !ok ==> flat == old(flat) && free == {} && !CanSwapOut()
    {
      hide Inv, VmasOk, SlotsOk, PagerOf, Tabled, Seated, IsPresent, IsWritable, Grown;
      ok := GetPte(v);
      if ok {
        ok := BringIn(v, a);
      }
    }

    /** `do_pgfault`.  The access is refused exactly when the area does not allow it;
        the panic for a write to a present page of a writable area is never reached. */
    method DoPgfault(error: nat, addr: nat) returns (r: Status)
      requires Valid({}) && FaultCode(error, addr)
      modifies this
      ensures Valid({}) && vmas == old(vmas)
      ensures r == Inval <==> error % 2 == 1 || !Allowed(vmas, addr, error % 4 == 2)
      ensures r == Ok ==> Present(addr / PGSIZE) && Grown(old(flat), flat, addr / PGSIZE)
      ensures r == Ok && error % 4 == 2 ==> IsWritable(ptes[addr / PGSIZE])
      ensures r != Ok ==> flat == old(flat)
      ensures r == Panic <==> r != Inval && Faulted(old(Pages()), maxSwapOffset, addr / PGSIZE).None?
      ensures r == Ok ==> Some(Pages()) == Faulted(old(Pages()), maxSwapOffset, addr / PGSIZE)
      ensures r == Inval ==> Pages() == old(Pages())
      ensures r == Panic ==> free == {} && !CanSwapOut()
    {
      hide Inv, VmasOk, SlotsOk, PagerOf, Faulted, IsPresent, IsWritable, Grown;
      var found := FindVma(addr);
      if found.None? {
        return Inval;
      }
      var a, v, code := found.value, addr / PGSIZE, error % 4;
      SameAreaAll(vmas, addr, a);
      AreaOfPage(vmas, addr, a);
      if code >= 2 {
        if !a.write {
          return Inval;
        }
      } else if code == 1 {
        return Inval;
      } else if !(a.read || a.exec) {
        return Inval;
      }
      if Present(v) {
        WritableArea(View(), vmas, v, a);
        assert false;
      }
      var ok := Serve(v, a);
      return if ok then Ok else Panic;
    }

    /** A load instruction, with the fault it may take. */
    method LoadByte(addr: nat) returns (r: Status, b: bv8)
      requires Valid({})
      modifies this
      ensures Valid({}) && vmas == old(vmas)
      ensures r == Outcome(old(Pages()), vmas, maxSwapOffset, Read(addr))
      ensures r != Panic ==> Pages() == Next(old(Pages()), vmas, maxSwapOffset, Read(addr))
      ensures r == Ok ==> Grown(old(flat), flat, addr / PGSIZE) && ByteAt(flat, addr) == Some(b)
      ensures r != Ok ==> flat == old(flat)
      ensures r == Panic ==> free == {} && !CanSwapOut()
    {
      hide FramesOk, FifoOk, AgesOk, ContentOk, PermsOk, SlotsOk, VmasOk, Allowed, PagerOf, Faulted;
      var v := addr / PGSIZE;
      QueuePresent(View(), v);
      r, b := Ok, 0;
      if v !in ptes || !IsPresent(ptes[v]) {
        r := DoPgfault(0, addr);
        if r != Ok {
          return;
        }
      }
      PresentBacked(View(), vmas, v);
      b := frames[FrameOf(ptes[v])][addr % PGSIZE];
    }

    /** A store instruction, with the fault it may take. */
    method StoreByte(addr: nat, b: bv8) returns (r: Status)
      requires Valid({})
      modifies this
      ensures Valid({}) && vmas == old(vmas)
      ensures r == Outcome(old(Pages()), vmas, maxSwapOffset, Write(addr, b))
      ensures r != Panic ==> Pages() == Next(old(Pages()), vmas, maxSwapOffset, Write(addr, b))
      ensures r == Ok ==> Wrote(old(flat), flat, addr, b)
      ensures r != Ok ==> flat == old(flat)
      ensures r == Panic ==> free == {} && !CanSwapOut()
    {
      hide FramesOk, FifoOk, AgesOk, ContentOk, PermsOk, SlotsOk, VmasOk, Allowed, PagerOf, Faulted;
      var v := addr / PGSIZE;
      QueuePresent(View(), v);
      r := Ok;
      if v !in ptes || !IsPresent(ptes[v]) {
        r := DoPgfault(2, addr);
      } else if !IsWritable(ptes[v]) {
        if Allowed(vmas, addr, true) {
          NotWritable(View(), vmas, addr);
          assert false;
        }
        r := DoPgfault(3, addr);
      } else {
        WritableAllowed(View(), vmas, addr);
      }
      if r != Ok {
        return;
      }
      PresentBacked(View(), vmas, v);
      var f, off := FrameOf(ptes[v]), addr % PGSIZE;
      StoreKeeps(View(), vmas, v, f, off, b);
      StorePager(View(), v, f, off, b);
      frames := frames[f := frames[f][off := b]];
      flat := flat[v := flat[v][off := b]];
    }

    /** An address space with its areas and nothing mapped. */
    constructor (areas: seq<Vma>, memory: seq<Page>, slots: nat)
      requires VmasOk(areas)
      ensures Valid({}) && vmas == areas && flat == map[] && |frames| == |memory| && maxSwapOffset == slots
    {
      vmas, mmapCache, tables, ptes := areas, None, map[], map[];
      frames, free, fifo, praVaddr := memory, AllFrames(|memory|), [], map[];
      disk, maxSwapOffset, flat, clock, since := map[], slots, map[], 0, map[];
    }

    /** Any program of loads and stores, up to a panic: each is answered as the areas, the frames and the slots
        decide, and a load of a byte that has been stored or loaded returns the last value stored or seen there. */
    method Execute(ops: seq<Op>) returns (res: seq<Reply>)
      requires Valid({}) && flat == map[]
      modifies this
      ensures Valid({}) && vmas == old(vmas) && |res| <= |ops|
      ensures Statuses(res) == Outcomes(old(Pages()), vmas, maxSwapOffset, ops)
      ensures |res| < |ops| ==> free == {} && !CanSwapOut()
      ensures SeenAll(ops, res)
    {
      hide Inv, VmasOk, SlotsOk, Allowed, CanSwapOut, PagerOf, Outcome, Next, LastSeen, SeenAll, Statuses;
      res := [];
      ghost var all := Outcomes(Pages(), vmas, maxSwapOffset, ops);
      NothingSeen(ops);
      assert ops[0..] == ops;
      while |res| < |ops|
        invariant Valid({}) && vmas == old(vmas) && |res| <= |ops|
        invariant all == Statuses(res) + Outcomes(Pages(), vmas, maxSwapOffset, ops[|res|..])
        invariant Remembered(ops, res, flat) && SeenAll(ops, res)
      {
        ghost var was, done, p := flat, res, Pages();
        var op := ops[|res|];
        NextOutcome(p, vmas, maxSwapOffset, ops, |res|);
        var r, b := Ok, 0;
        if op.Read? {
          r, b := LoadByte(op.addr);
        } else {
          r := StoreByte(op.addr, op.b);
        }
        if r == Panic {
          return;
        }
        res := res + [Reply(r, b)];
        OneMore(all, done, Reply(r, b), Outcomes(Pages(), vmas, maxSwapOffset, ops[|res|..]));
        OneMoreSeen(ops, done, Reply(r, b), was, flat);
      }
      NoMoreOutcomes(Pages(), vmas, maxSwapOffset, ops, |res|);
    }
  }

  function Statuses(res: seq<Reply>): seq<Status> {
    seq(|res|, i requires 0 <= i < |res| => res[i].status)
  }

  /** Every load returned what was last stored or seen at its address. */
  ghost predicate SeenAll(ops: seq<Op>, res: seq<Reply>) {
    |res| <= |ops| && forall i: nat :: i < |res| ==> SeenAt(ops, res, i)
  }

  ghost predicate SeenAt(ops: seq<Op>, res: seq<Reply>, i: nat)
    requires i < |res| <= |ops|
  {
    ops[i].Read? && res[i].status == Ok && LastSeen(ops, res[..i], ops[i].addr).Some? ==>
      res[i].b == LastSeen(ops, res[..i], ops[i].addr).value
  }

  /** The flat memory has every byte at the value last stored or seen. */
  ghost predicate Remembered(ops: seq<Op>, res: seq<Reply>, flat: map<nat, Page>) {
    |res| <= |ops| && forall addr: nat :: LastSeen(ops, res, addr).Some? ==>
          ByteAt(flat, addr) == LastSeen(ops, res, addr)
  }

  lemma NothingSeen(ops: seq<Op>)
    ensures SeenAll(ops, []) && (forall flat: map<nat, Page> :: Remembered(ops, [], flat)) && Statuses([]) == []
  {
  }

  lemma OneMoreSeen(ops: seq<Op>, done: seq<Reply>, reply: Reply, was: map<nat, Page>, now: map<nat, Page>)
    requires |done| < |ops| && SeenAll(ops, done) && Remembered(ops, done, was)
    requires var op := ops[|done|];
             if reply.status != Ok then now == was
             else if op.Read? then Grown(was, now, op.addr / PGSIZE) && ByteAt(now, op.addr) == Some(reply.b)
             else Wrote(was, now, op.addr, op.b)
    ensures SeenAll(ops, done + [reply]) && Remembered(ops, done + [reply], now)
  {
    LastSeenStep(ops, done, reply, was, now);
    var res := done + [reply];
    forall i: nat | i < |res|
      ensures SeenAt(ops, res, i)
    {
      assert res[..i] == done[..i];
      if i < |done| {
        assert SeenAt(ops, done, i);
      } else {
        assert done[..i] == done;
        assert LastSeen(ops, done, ops[i].addr).Some? ==> ByteAt(was, ops[i].addr) == LastSeen(ops, done, ops[i].addr);
      }
    }
  }

  lemma NextOutcome(p: Pager, vmas: seq<Vma>, max: nat, ops: seq<Op>, k: nat)
    requires k < |ops|
    ensures Outcomes(p, vmas, max, ops[k..])
         == if Outcome(p, vmas, max, ops[k]) == Panic then []
            else [Outcome(p, vmas, max, ops[k])] + Outcomes(Next(p, vmas, max, ops[k]), vmas, max, ops[k + 1..])
  {
    hide Outcome, Next;
    assert ops[k..][0] == ops[k] && ops[k..][1..] == ops[k + 1..];
  }

  lemma NoMoreOutcomes(p: Pager, vmas: seq<Vma>, max: nat, ops: seq<Op>, k: nat)
    requires k == |ops|
    ensures Outcomes(p, vmas, max, ops[k..]) == []
  {
  }

  lemma OneMore(all: seq<Status>, done: seq<Reply>, reply: Reply, rest: seq<Status>)
    requires all == Statuses(done) + ([reply.status] + rest)
    ensures all == Statuses(done + [reply]) + rest
  {
    assert Statuses(done + [reply]) == Statuses(done) + [reply.status];
  }

  lemma EvictTouchesPresent(m: Mem, vmas: seq<Vma>, loose: set<nat>)
    requires Inv(m, vmas, loose) && CanEvict(m)
    ensures var r := Evict(m);
            && r.free != {}
            && forall u: nat :: !(u in m.ptes && IsPresent(m.ptes[u])) ==>
                 (u in r.ptes <==> u in m.ptes) && (u in r.ptes ==> r.ptes[u] == m.ptes[u])
  {
    EvictFacts(m, loose);
    assert m.fifo[|m.fifo| - 1] in Evict(m).free;
  }

  lemma SwappedBacked(m: Mem, vmas: seq<Vma>, loose: set<nat>, v: nat)
    requires Inv(m, vmas, loose) && v in m.ptes && m.ptes[v] != 0 && !IsPresent(m.ptes[v])
    ensures v in m.flat && m.ptes[v] == SwapEntry(v) && v + 1 in m.disk && m.disk[v + 1] == m.flat[v]
  {
    assert v in m.flat;
    assert Backed(m, v);
  }

  /** A page without an entry has never been touched. */
  lemma BringInFacts(m: Mem, vmas: seq<Vma>, v: nat, f: nat)
    requires Inv(m, vmas, {f}) && !(v in m.ptes && IsPresent(m.ptes[v])) && (v !in m.ptes || m.ptes[v] == 0)
    ensures v !in m.flat
  {
    if v in m.flat {
      assert Backed(m, v);
      Words(f, true, v);
      assert false;
    }
  }

  lemma SlotsAfterMap(ptes: map<nat, nat>, max: nat, v: nat, f: nat, w: bool)
    requires SlotsOk(ptes, max)
    ensures SlotsOk(ptes[v := PresentPte(f, w)], max)
  {
    Words(f, w, v);
  }

  /** A present page of a writable area is writable. */
  lemma WritableArea(m: Mem, vmas: seq<Vma>, v: nat, a: Vma)
    requires Inv(m, vmas, {}) && VmasOk(vmas) && a in vmas && Contains(a, v * PGSIZE) && a.write
    requires v in m.ptes && IsPresent(m.ptes[v])
    ensures IsWritable(m.ptes[v])
  {
    assert Mapped(m, v, FrameOf(m.ptes[v]));
    var b :| b in vmas && Contains(b, v * PGSIZE) && b.write == IsWritable(m.ptes[v]);
    assert v * PGSIZE / PGSIZE * PGSIZE == v * PGSIZE;
    SameArea(vmas, v * PGSIZE, a, b);
  }

  lemma PresentBacked(m: Mem, vmas: seq<Vma>, v: nat)
    requires Inv(m, vmas, {}) && v in m.ptes && IsPresent(m.ptes[v])
    ensures Mapped(m, v, FrameOf(m.ptes[v])) && v in m.flat && FrameOf(m.ptes[v]) < |m.frames|
    ensures m.frames[FrameOf(m.ptes[v])] == m.flat[v]
  {
    assert v in m.flat;
    assert Backed(m, v);
  }

  /** A writable page lies in a writable area, and the area covers the whole page. */
  lemma WritableAllowed(m: Mem, vmas: seq<Vma>, addr: nat)
    requires Inv(m, vmas, {}) && VmasOk(vmas)
    requires addr / PGSIZE in m.ptes && IsPresent(m.ptes[addr / PGSIZE]) && IsWritable(m.ptes[addr / PGSIZE])
    ensures Allowed(vmas, addr, true)
  {
    var v: nat := addr / PGSIZE;
    assert Mapped(m, v, FrameOf(m.ptes[v]));
    var a :| a in vmas && Contains(a, v * PGSIZE) && a.write == IsWritable(m.ptes[v]);
    assert Contains(a, addr);
  }

  lemma NotWritable(m: Mem, vmas: seq<Vma>, addr: nat)
    requires Inv(m, vmas, {}) && VmasOk(vmas) && Allowed(vmas, addr, true)
    ensures addr / PGSIZE in m.ptes && IsPresent(m.ptes[addr / PGSIZE]) ==> IsWritable(m.ptes[addr / PGSIZE])
  {
    var a :| a in vmas && Contains(a, addr) && a.write;
    AreaOfPage(vmas, addr, a);
    if addr / PGSIZE in m.ptes && IsPresent(m.ptes[addr / PGSIZE]) {
      WritableArea(m, vmas, addr / PGSIZE, a);
    }
  }

  lemma TakeFacts(m: Mem, vmas: seq<Vma>, loose: set<nat>, f: nat)
    requires Inv(m, vmas, loose) && f in m.free
    ensures f !in loose && f < |m.frames|
  {
  }
}
