/**
 Address spaces and the frames behind them.  Virtual addresses are counted in pages; a page
 table serves 1024 of them.  `use` says of every frame what it is for, and `names` which
 page-table entries name it, so that frames, tables and directories partition memory.
 */
module AddressSpace {
  const TABLE_PAGES: nat := 1024

  type Page = seq<bv8>

  datatype Vma = Vma(start: nat, end: nat, flags: nat)

  datatype Pte = Pte(frame: nat, perm: nat)

  datatype Space = Space(dir: nat, tables: map<nat, nat>, ptes: map<nat, Pte>, vmas: seq<Vma>)

  datatype Use = Free | Dir(id: nat) | Table(id: nat, d: nat) | Data

  datatype World = World(ref: map<nat, nat>, data: map<nat, Page>, spaces: map<nat, Space>, use: map<nat, Use>,
        names: map<nat, set<(nat, nat)>>)

  /** The page table that serves page `v`. */
  function TableOf(v: nat): (d: nat)
    ensures 1024 * d <= v < 1024 * (d + 1)
  {
    v / TABLE_PAGES
  }

  // ----- the invariant -----

  predicate NamedAt(w: World, f: nat, id: nat, v: nat) {
    id in w.spaces && v in w.spaces[id].ptes && w.spaces[id].ptes[v].frame == f
  }

  ghost predicate DataOk(w: World, f: nat) {
    && f in w.ref && f in w.names && w.ref[f] == |w.names[f]| > 0
    && (forall id: nat, v: nat :: (id, v) in w.names[f] ==> NamedAt(w, f, id, v))
  }

  /** A frame in use is reached from a live address space, in the one way its use says. */
  ghost predicate FrameOk(w: World, f: nat) {
    && f in w.use
    && match w.use[f]
       case Free => f in w.ref && w.ref[f] == 0
       case Dir(id) => id in w.spaces && w.spaces[id].dir == f
       case Table(id, d) => id in w.spaces && d in w.spaces[id].tables && w.spaces[id].tables[d] == f
       case Data => DataOk(w, f)
  }

  predicate TableOk(w: World, id: nat, d: nat) {
    && id in w.spaces && d in w.spaces[id].tables
    && w.spaces[id].tables[d] in w.use && w.use[w.spaces[id].tables[d]] == Table(id, d)
  }

  predicate PteOk(w: World, id: nat, v: nat) {
    && id in w.spaces && v in w.spaces[id].ptes
    && TableOf(v) in w.spaces[id].tables
    && var f := w.spaces[id].ptes[v].frame;
    f in w.use && w.use[f] == Data && f in w.data && f in w.names && (id, v) in w.names[f]
  }

  ghost predicate SpaceOk(w: World, id: nat) {
    && id in w.spaces && w.spaces[id].dir in w.use && w.use[w.spaces[id].dir] == Dir(id)
    && (forall d: nat :: d in w.spaces[id].tables ==> TableOk(w, id, d))
    && (forall v: nat :: v in w.spaces[id].ptes ==> PteOk(w, id, v))
  }

  ghost predicate WorldOk(w: World) {
    && (forall f: nat :: f in w.use ==> FrameOk(w, f))
    && (forall id: nat :: id in w.spaces ==> SpaceOk(w, id))
  }

  lemma FrameAt(w: World, f: nat)
    requires WorldOk(w) && f in w.use
    ensures FrameOk(w, f)
  {
  }

  lemma SpaceAt(w: World, id: nat)
    requires WorldOk(w) && id in w.spaces
    ensures SpaceOk(w, id)
  {
  }

  lemma PteAt(w: World, id: nat, v: nat)
    requires WorldOk(w) && id in w.spaces && v in w.spaces[id].ptes
    ensures PteOk(w, id, v)
  {
    assert SpaceOk(w, id);
  }

  lemma TableAt(w: World, id: nat, d: nat)
    requires WorldOk(w) && id in w.spaces && d in w.spaces[id].tables
    ensures TableOk(w, id, d)
  {
    assert SpaceOk(w, id);
  }

  // ----- a new page table -----

  function WithTable(w: World, id: nat, d: nat, f: nat): World
    requires id in w.spaces
  {
    w.(spaces := w.spaces[id := w.spaces[id].(tables := w.spaces[id].tables[d := f])], use := w.use[f := Table(id, d)],
          ref := w.ref[f := 1])
  }

  lemma WithTableKeeps(w: World, id: nat, d: nat, f: nat)
    requires WorldOk(w) && id in w.spaces && d !in w.spaces[id].tables && f in w.use && w.use[f] == Free
    ensures WorldOk(WithTable(w, id, d, f))
  {
    var u := WithTable(w, id, d, f);
    forall g: nat | g in u.use
      ensures FrameOk(u, g)
    {
      hide WorldOk;
      FrameAt(w, g);
      if u.use[g] == Data {
        SameNames(w, u, g);
      }
    }
    forall j: nat | j in u.spaces
      ensures SpaceOk(u, j)
    {
      hide WorldOk;
      SpaceAt(w, j);
      forall e: nat | e in u.spaces[j].tables
        ensures TableOk(u, j, e)
      {
        assert e in w.spaces[j].tables ==> TableOk(w, j, e);
      }
      forall v: nat | v in u.spaces[j].ptes
        ensures PteOk(u, j, v)
      {
        assert PteOk(w, j, v);
      }
    }
  }

  /** A data frame stays in order while no entry changes. */
  lemma SameNames(w: World, u: World, f: nat)
    requires DataOk(w, f) && f in u.ref && f in u.names && u.ref[f] == w.ref[f] && u.names[f] == w.names[f]
    requires forall id: nat :: id in w.spaces ==> id in u.spaces && u.spaces[id].ptes == w.spaces[id].ptes
    ensures DataOk(u, f)
  {
    forall id: nat, v: nat | (id, v) in u.names[f]
      ensures NamedAt(u, f, id, v)
    {
      assert NamedAt(w, f, id, v);
    }
  }

  // ----- a new entry for a fresh frame -----

  function Mapped(w: World, id: nat, v: nat, f: nat, perm: nat, page: Page): World
    requires id in w.spaces && f in w.ref
  {
    w.(spaces := w.spaces[id := w.spaces[id].(ptes := w.spaces[id].ptes[v := Pte(f, perm)])], use := w.use[f := Data],
       names := w.names[f := {(id, v)}], ref := w.ref[f := w.ref[f] + 1], data := w.data[f := page])
  }

  lemma MapKeeps(w: World, id: nat, v: nat, f: nat, perm: nat, page: Page)
    requires WorldOk(w) && id in w.spaces && v !in w.spaces[id].ptes && TableOf(v) in w.spaces[id].tables
    requires f in w.use && w.use[f] == Free
    ensures f in w.ref && WorldOk(Mapped(w, id, v, f, perm, page))
  {
    FrameAt(w, f);
    var u := Mapped(w, id, v, f, perm, page);
    forall g: nat | g in u.use
      ensures FrameOk(u, g)
    {
      hide WorldOk;
      FrameAt(w, g);
      if u.use[g] == Data && g != f {
        MapNames(w, id, v, f, perm, page, g);
      }
    }
    forall j: nat | j in u.spaces
      ensures SpaceOk(u, j)
    {
      hide WorldOk;
      SpaceAt(w, j);
      hide SpaceOk, Mapped;
      MapSpace(w, id, v, f, perm, page, j);
    }
  }

  lemma MapSpace(w: World, id: nat, v: nat, f: nat, perm: nat, page: Page, j: nat)
    requires SpaceOk(w, j) && id in w.spaces && v !in w.spaces[id].ptes && TableOf(v) in w.spaces[id].tables
    requires f in w.use && w.use[f] == Free && f in w.ref
    ensures SpaceOk(Mapped(w, id, v, f, perm, page), j)
  {
    var u := Mapped(w, id, v, f, perm, page);
    forall e: nat | e in u.spaces[j].tables
      ensures TableOk(u, j, e)
    {
      assert TableOk(w, j, e);
    }
    forall x: nat | x in u.spaces[j].ptes
      ensures PteOk(u, j, x)
    {
      assert (j == id && x == v) || PteOk(w, j, x);
    }
  }

  lemma MapNames(w: World, id: nat, v: nat, f: nat, perm: nat, page: Page, g: nat)
    requires DataOk(w, g) && g != f && id in w.spaces && v !in w.spaces[id].ptes && f in w.ref
    ensures DataOk(Mapped(w, id, v, f, perm, page), g)
  {
    var u := Mapped(w, id, v, f, perm, page);
    forall j: nat, x: nat | (j, x) in u.names[g]
      ensures NamedAt(u, g, j, x)
    {
      assert NamedAt(w, g, j, x);
    }
  }

  // ----- one more entry for a frame in use -----

  function Shared(w: World, id: nat, v: nat, f: nat, perm: nat): World
    requires id in w.spaces && f in w.ref && f in w.names
  {
    w.(spaces := w.spaces[id := w.spaces[id].(ptes := w.spaces[id].ptes[v := Pte(f, perm)])],
       names := w.names[f := w.names[f] + {(id, v)}], ref := w.ref[f := w.ref[f] + 1])
  }

  /** A frame with data is named by an entry, and its content is known. */
  lemma SomeEntry(w: World, f: nat) returns (id: nat, v: nat)
    requires WorldOk(w) && f in w.use && w.use[f] == Data
    ensures NamedAt(w, f, id, v) && f in w.data && f in w.ref && f in w.names
  {
    hide WorldOk;
    FrameAt(w, f);
    var e :| e in w.names[f];
    id, v := e.0, e.1;
    assert NamedAt(w, f, id, v);
    PteAt(w, id, v);
  }

  lemma ShareKeeps(w: World, id: nat, v: nat, f: nat, perm: nat)
    requires WorldOk(w) && id in w.spaces && v !in w.spaces[id].ptes && TableOf(v) in w.spaces[id].tables
    requires f in w.use && w.use[f] == Data
    ensures f in w.ref && f in w.names && WorldOk(Shared(w, id, v, f, perm))
  {
    var i, x := SomeEntry(w, f);
    var u := Shared(w, id, v, f, perm);
    forall g: nat | g in u.use
      ensures FrameOk(u, g)
    {
      hide WorldOk;
      FrameAt(w, g);
      if u.use[g] == Data {
        ShareNames(w, id, v, f, perm, g);
      }
    }
    forall j: nat | j in u.spaces
      ensures SpaceOk(u, j)
    {
      hide WorldOk;
      SpaceAt(w, j);
      hide SpaceOk, Shared;
      ShareSpace(w, id, v, f, perm, j);
    }
  }

  lemma ShareSpace(w: World, id: nat, v: nat, f: nat, perm: nat, j: nat)
    requires SpaceOk(w, j) && id in w.spaces && v !in w.spaces[id].ptes && TableOf(v) in w.spaces[id].tables
    requires f in w.use && w.use[f] == Data && f in w.ref && f in w.names && f in w.data
    ensures SpaceOk(Shared(w, id, v, f, perm), j)
  {
    var u := Shared(w, id, v, f, perm);
    forall e: nat | e in u.spaces[j].tables
      ensures TableOk(u, j, e)
    {
      assert TableOk(w, j, e);
    }
    forall x: nat | x in u.spaces[j].ptes
      ensures PteOk(u, j, x)
    {
      assert (j == id && x == v) || PteOk(w, j, x);
    }
  }

  lemma ShareNames(w: World, id: nat, v: nat, f: nat, perm: nat, g: nat)
    requires DataOk(w, g) && DataOk(w, f) && id in w.spaces && v !in w.spaces[id].ptes
    ensures DataOk(Shared(w, id, v, f, perm), g)
  {
    var u := Shared(w, id, v, f, perm);
    assert (id, v) !in w.names[f] by {
      assert !NamedAt(w, f, id, v);
    }
    forall j: nat, x: nat | (j, x) in u.names[g]
      ensures NamedAt(u, g, j, x)
    {
      assert (j, x) == (id, v) || NamedAt(w, g, j, x);
    }
  }

  // ----- another permission -----

  function Repermed(w: World, id: nat, v: nat, perm: nat): World
    requires id in w.spaces && v in w.spaces[id].ptes
  {
    w.(spaces := w.spaces[id := w.spaces[id].(
         ptes := w.spaces[id].ptes[v := Pte(w.spaces[id].ptes[v].frame, perm)])])
  }

  lemma RepermKeeps(w: World, id: nat, v: nat, perm: nat)
    requires WorldOk(w) && id in w.spaces && v in w.spaces[id].ptes
    ensures WorldOk(Repermed(w, id, v, perm))
  {
    var u := Repermed(w, id, v, perm);
    forall g: nat | g in u.use
      ensures FrameOk(u, g)
    {
      hide WorldOk;
      FrameAt(w, g);
      if u.use[g] == Data {
        forall j: nat, x: nat | (j, x) in u.names[g]
          ensures NamedAt(u, g, j, x)
        {
          assert NamedAt(w, g, j, x);
        }
      }
    }
    forall j: nat | j in u.spaces
      ensures SpaceOk(u, j)
    {
      hide WorldOk;
      SpaceAt(w, j);
      forall e: nat | e in u.spaces[j].tables
        ensures TableOk(u, j, e)
      {
        assert TableOk(w, j, e);
      }
      forall x: nat | x in u.spaces[j].ptes
        ensures PteOk(u, j, x)
      {
        assert PteOk(w, j, x);
      }
    }
  }

  // ----- removing an entry -----

  /** `page_remove_pte`: the frame is freed when the last entry that names it goes. */
  function Unmapped(w: World, id: nat, v: nat): World
    requires id in w.spaces && v in w.spaces[id].ptes && w.spaces[id].ptes[v].frame in w.ref
             && w.spaces[id].ptes[v].frame in w.names
    requires w.ref[w.spaces[id].ptes[v].frame] > 0
  {
    var f := w.spaces[id].ptes[v].frame;
    w.(spaces := w.spaces[id := w.spaces[id].(ptes := w.spaces[id].ptes - {v})], ref := w.ref[f := w.ref[f] - 1],
       names := w.names[f := w.names[f] - {(id, v)}], use := if w.ref[f] == 1 then w.use[f := Free] else w.use)
  }

  lemma UnmapFacts(w: World, id: nat, v: nat)
    requires WorldOk(w) && id in w.spaces && v in w.spaces[id].ptes
    ensures var f := w.spaces[id].ptes[v].frame;
            f in w.use && w.use[f] == Data && f in w.data && DataOk(w, f) && (id, v) in w.names[f]
  {
    hide WorldOk;
    PteAt(w, id, v);
    FrameAt(w, w.spaces[id].ptes[v].frame);
  }

  lemma UnmapNames(w: World, id: nat, v: nat, g: nat)
    requires id in w.spaces && v in w.spaces[id].ptes && DataOk(w, g)
    requires var f := w.spaces[id].ptes[v].frame; DataOk(w, f) && (id, v) in w.names[f]
    ensures var f := w.spaces[id].ptes[v].frame; (g == f && w.ref[f] == 1) || DataOk(Unmapped(w, id, v), g)
  {
    var f, u := w.spaces[id].ptes[v].frame, Unmapped(w, id, v);
    forall j: nat, x: nat | (j, x) in u.names[g]
      ensures NamedAt(u, g, j, x)
    {
      assert NamedAt(w, g, j, x);
      assert g != f ==> (j, x) != (id, v);
    }
  }

  lemma UnmapKeeps(w: World, id: nat, v: nat)
    requires WorldOk(w) && id in w.spaces && v in w.spaces[id].ptes
    requires var f := w.spaces[id].ptes[v].frame; f in w.ref && f in w.names && w.ref[f] > 0
    ensures WorldOk(Unmapped(w, id, v))
  {
    var f, u := w.spaces[id].ptes[v].frame, Unmapped(w, id, v);
    UnmapFacts(w, id, v);
    forall g: nat | g in u.use
      ensures FrameOk(u, g)
    {
      hide WorldOk, DataOk;
      FrameAt(w, g);
      if u.use[g] == Data {
        UnmapNames(w, id, v, g);
      }
    }
    forall j: nat | j in u.spaces
      ensures SpaceOk(u, j)
    {
      hide WorldOk;
      SpaceAt(w, j);
      forall e: nat | e in u.spaces[j].tables
        ensures TableOk(u, j, e)
      {
        assert TableOk(w, j, e);
      }
      forall x: nat | x in u.spaces[j].ptes
        ensures PteOk(u, j, x)
      {
        UnmapPte(w, id, v, j, x);
      }
    }
  }

  /** The other entries keep their frames: one that shares the frame kept it from being freed. */
  lemma UnmapPte(w: World, id: nat, v: nat, j: nat, x: nat)
    requires SpaceOk(w, j) && x in w.spaces[j].ptes && (j != id || x != v) && id in w.spaces && v in w.spaces[id].ptes
    requires var f := w.spaces[id].ptes[v].frame; DataOk(w, f) && (id, v) in w.names[f]
    ensures PteOk(Unmapped(w, id, v), j, x)
  {
    assert PteOk(w, j, x);
    var f := w.spaces[id].ptes[v].frame;
    if w.spaces[j].ptes[x].frame == f {
      var rest := w.names[f] - {(id, v)};
      assert (j, x) in rest && |rest| == w.ref[f] - 1;
    }
  }

  // ----- dropping a table, making and dropping a directory -----

  function WithoutTable(w: World, id: nat, d: nat): World
    requires id in w.spaces && d in w.spaces[id].tables
  {
    var f := w.spaces[id].tables[d];
    w.(spaces := w.spaces[id := w.spaces[id].(tables := w.spaces[id].tables - {d})],
       use := w.use[f := Free], ref := w.ref[f := 0])
  }

  lemma DropTableKeeps(w: World, id: nat, d: nat)
    requires WorldOk(w) && id in w.spaces && d in w.spaces[id].tables && w.spaces[id].ptes == map[]
    ensures w.spaces[id].tables[d] in w.use && w.use[w.spaces[id].tables[d]] == Table(id, d)
    ensures WorldOk(WithoutTable(w, id, d))
  {
    TableAt(w, id, d);
    var u := WithoutTable(w, id, d);
    forall g: nat | g in u.use
      ensures FrameOk(u, g)
    {
      hide WorldOk;
      FrameAt(w, g);
      if u.use[g] == Data {
        SameNames(w, u, g);
      }
    }
    forall j: nat | j in u.spaces
      ensures SpaceOk(u, j)
    {
      hide WorldOk;
      SpaceAt(w, j);
      forall e: nat | e in u.spaces[j].tables
        ensures TableOk(u, j, e)
      {
        assert TableOk(w, j, e);
      }
      forall x: nat | x in u.spaces[j].ptes
        ensures PteOk(u, j, x)
      {
        assert PteOk(w, j, x);
      }
    }
  }

  function WithSpace(w: World, id: nat, f: nat): World {
    w.(spaces := w.spaces[id := Space(f, map[], map[], [])], use := w.use[f := Dir(id)])
  }

  lemma WithSpaceKeeps(w: World, id: nat, f: nat)
    requires WorldOk(w) && id !in w.spaces && f in w.use && w.use[f] == Free
    ensures WorldOk(WithSpace(w, id, f))
  {
    var u := WithSpace(w, id, f);
    forall g: nat | g in u.use
      ensures FrameOk(u, g)
    {
      hide WorldOk;
      FrameAt(w, g);
      if u.use[g] == Data {
        SameNames(w, u, g);
      }
    }
    forall j: nat | j in u.spaces
      ensures SpaceOk(u, j)
    {
      hide WorldOk;
      if j != id {
        SpaceAt(w, j);
        forall e: nat | e in u.spaces[j].tables
          ensures TableOk(u, j, e)
        {
          assert TableOk(w, j, e);
        }
        forall x: nat | x in u.spaces[j].ptes
          ensures PteOk(u, j, x)
        {
          assert PteOk(w, j, x);
        }
      }
    }
  }

  function WithoutSpace(w: World, id: nat): World
    requires id in w.spaces
  {
    var f := w.spaces[id].dir;
    w.(spaces := w.spaces - {id}, use := w.use[f := Free], ref := w.ref[f := 0])
  }

  lemma DropSpaceKeeps(w: World, id: nat)
    requires WorldOk(w) && id in w.spaces && w.spaces[id].ptes == map[] && w.spaces[id].tables == map[]
    ensures w.spaces[id].dir in w.use && w.use[w.spaces[id].dir] == Dir(id)
    ensures WorldOk(WithoutSpace(w, id))
  {
    SpaceAt(w, id);
    var u := WithoutSpace(w, id);
    forall g: nat | g in u.use
      ensures FrameOk(u, g)
    {
      hide WorldOk;
      FrameAt(w, g);
      if u.use[g] == Data {
        LastSpaceNames(w, u, id, g);
      }
    }
    forall j: nat | j in u.spaces
      ensures SpaceOk(u, j)
    {
      hide WorldOk;
      SpaceAt(w, j);
      forall e: nat | e in u.spaces[j].tables
        ensures TableOk(u, j, e)
      {
        assert TableOk(w, j, e);
      }
      forall x: nat | x in u.spaces[j].ptes
        ensures PteOk(u, j, x)
      {
        assert PteOk(w, j, x);
      }
    }
  }

  lemma LastSpaceNames(w: World, u: World, id: nat, f: nat)
    requires DataOk(w, f) && id in w.spaces && w.spaces[id].ptes == map[] && u.spaces == w.spaces - {id}
    requires f in u.ref && u.ref[f] == w.ref[f] && u.names == w.names
    ensures DataOk(u, f)
  {
    forall j: nat, v: nat | (j, v) in u.names[f]
      ensures NamedAt(u, f, j, v)
    {
      assert NamedAt(w, f, j, v);
    }
  }
}
