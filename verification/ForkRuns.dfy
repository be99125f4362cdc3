/**
 Whole runs of address spaces.  The reference knows no frames: an address space is its areas, the
 set of its tables and a map from pages to their contents, and memory is a number of free frames.
 Every run on frames, tables and reference counts gives the same answers and the same contents.
 */
module ForkRuns {
  import opened AddressSpace
  import opened ForkExit
  import opened ForkFrames

  datatype Slot = Slot(perm: nat, page: Page)

  datatype Image = Image(vmas: seq<Vma>, tables: set<nat>, slots: map<nat, Slot>)

  datatype Machine = Machine(free: nat, images: map<nat, Image>)

  datatype Op =
    | Create(id: nat)
    | Map(id: nat, addr: nat, len: nat, flags: nat, granted: bool)
    | Touch(id: nat, v: nat, perm: nat, page: Page)
    | Write(id: nat, v: nat, page: Page)
    | Fork(child: nat, parent: nat)
    | End(id: nat)

  datatype Reply = Done | Refused | Short | Halted

  // ----- the reference -----

  function Copy(i: Image): Image {
    Image(i.vmas, TablesOf(i.slots.Keys), map v | v in i.slots :: Slot(UserBits(i.slots[v].perm), i.slots[v].page))
  }

  ghost predicate Applies(m: Machine, op: Op) {
    match op
    case Create(id) => id !in m.images
    case Map(id, _, _, _, _) => id in m.images
    case Touch(id, v, _, _) => id in m.images && InSome(m.images[id].vmas, v)
    case Write(id, v, _) => id in m.images && v in m.images[id].slots
    case Fork(child, parent) => parent in m.images && child !in m.images
    case End(id) => id in m.images
  }

  function Asked(op: Op): Vma
    requires op.Map?
  {
    Vma(FirstPage(op.addr), LastPage(op.addr, op.len), op.flags)
  }

  ghost function Answer(m: Machine, op: Op): Reply {
    if !Applies(m, op) then Refused else
    match op
    case Create(_) => if m.free == 0 then Short else Done
    case Map(id, _, _, _, granted) =>
      (match MapVerdict(m.images[id].vmas, Asked(op), granted)
       case Made => Done
       case Invalid => Refused
       case NoVma => Short
       case Overlap => Halted)
    case Touch(id, v, _, _) => if m.free < |PageAsks(m.images[id].tables, v)| then Short else Done
    case Write(_, _, _) => Done
    case Fork(_, parent) =>
      (match Fate(CopyAsks(m.images[parent].slots.Keys, m.images[parent].vmas), m.free)
       case Ok => Done
       case NoMem => Short
       case Panic => Halted)
    case End(_) => Done
  }

  function Size(i: Image): nat { 1 + |i.tables| + |i.slots| }

  /** Only what is done changes anything. */
  ghost function After(m: Machine, op: Op): Machine {
    if Answer(m, op) != Done then m else
    match op
    case Create(id) => Machine(m.free - 1, m.images[id := Image([], {}, map[])])
    case Map(id, _, _, _, _) => m.(images := m.images[id :=
           m.images[id].(vmas := Inserted(m.images[id].vmas, Asked(op)))])
    case Touch(id, v, perm, page) =>
      var i := m.images[id];
      Machine(m.free - |PageAsks(i.tables, v)| + (if v in i.slots then 1 else 0),
              m.images[id := Image(i.vmas, i.tables + {TableOf(v)}, i.slots[v := Slot(Present(perm), page)])])
    case Write(id, v, page) =>
      var i := m.images[id];
      m.(images := m.images[id := i.(slots := i.slots[v := i.slots[v].(page := page)])])
    case Fork(child, parent) =>
      var i := m.images[parent];
      Machine(m.free - |CopyAsks(i.slots.Keys, i.vmas)|, m.images[child := Copy(i)])
    case End(id) => Machine(m.free + Size(m.images[id]), m.images - {id})
  }

  /** A fork that succeeds: the child has the areas, the pages and the page contents of its parent, with the same
      present, writable and user bits and no other one, and nobody else changes. */
  lemma ForkShows(m: Machine, child: nat, parent: nat)
    requires Answer(m, Fork(child, parent)) == Done
    ensures var r := After(m, Fork(child, parent));
            && parent in m.images && child !in m.images && r.images.Keys == m.images.Keys + {child}
            && (forall id: nat :: id in m.images ==> r.images[id] == m.images[id])
            && var i, j := m.images[parent], r.images[child];
            && j.vmas == i.vmas && j.slots.Keys == i.slots.Keys
            && forall v: nat :: v in i.slots ==>
                 j.slots[v].page == i.slots[v].page && SameUserBits(i.slots[v].perm, j.slots[v].perm)
  {
    hide Fate, CopyAsks, TablesOf, UserBits, SameUserBits;
  }

  /** A request for an area that does not wrap, told by its bytes: when it is refused, when it panics, and which
      pages the areas have afterwards. */
  lemma MapShows(m: Machine, op: Op)
    requires op.Map? && op.id in m.images && VmasOk(m.images[op.id].vmas)
    requires 0 < op.len && op.addr + op.len <= 0x1_0000_0000
    ensures var vmas, r := m.images[op.id].vmas, Answer(m, op);
            && (r == Refused <==>
                  op.addr < 0x20_0000 || op.addr + op.len > 0xB000_0000 || InSome(vmas, op.addr / 4096))
            && (r == Halted <==>
                  r != Refused && op.granted && exists v: nat :: Requested(op.addr, op.len, v) && InSome(vmas, v))
            && (r == Short <==> r != Refused && !op.granted)
            && (r == Done ==> op.id in After(m, op).images && forall v: nat ::
                  InSome(After(m, op).images[op.id].vmas, v) <==> InSome(vmas, v) || Requested(op.addr, op.len, v))
  {
    hide FirstPage, LastPage, InSome, Requested, Inserted, VmasOk;
    MapMeans(m.images[op.id].vmas, op.addr, op.len, op.flags, op.granted);
  }

  /** The answers of a run, which ends with a panic. */
  ghost function Answers(m: Machine, ops: seq<Op>): seq<Reply>
    decreases |ops|
  {
    if ops == [] then []
    else if Answer(m, ops[0]) == Halted then [Halted]
    else [Answer(m, ops[0])] + Answers(After(m, ops[0]), ops[1..])
  }

  ghost function Final(m: Machine, ops: seq<Op>): Machine
    decreases |ops|
  {
    if ops == [] || Answer(m, ops[0]) == Halted then m else Final(After(m, ops[0]), ops[1..])
  }

  // ----- what a memory shows -----

  function PageAt(data: map<nat, Page>, f: nat): Page { if f in data then data[f] else [] }

  function ImageOf(data: map<nat, Page>, s: Space): Image {
    Image(s.vmas, s.tables.Keys, map v | v in s.ptes :: Slot(s.ptes[v].perm, PageAt(data, s.ptes[v].frame)))
  }

  function Shown(free: set<nat>, data: map<nat, Page>, spaces: map<nat, Space>): Machine {
    Machine(|free|, map id | id in spaces :: ImageOf(data, spaces[id]))
  }

  ghost predicate AllCovered(spaces: map<nat, Space>) {
    forall id: nat :: id in spaces ==> Covered(spaces[id])
  }

  ghost predicate Good(k: Memory)
    reads k
  {
    k.Valid({}) && Unshared(k.spaces) && AllCovered(k.spaces)
  }

  ghost function See(k: Memory): Machine
    reads k
  {
    Shown(k.free, k.data, k.spaces)
  }

  lemma ImageSame(data: map<nat, Page>, data': map<nat, Page>, s: Space)
    requires forall v: nat :: v in s.ptes ==> PageAt(data', s.ptes[v].frame) == PageAt(data, s.ptes[v].frame)
    ensures ImageOf(data', s) == ImageOf(data, s)
  {
  }

  /** One space changes, and the others show what they showed. */
  lemma ShownBut(free: set<nat>, data: map<nat, Page>, spaces: map<nat, Space>,
                 free': set<nat>, data': map<nat, Page>, spaces': map<nat, Space>, id: nat)
    requires id in spaces' && spaces' == spaces[id := spaces'[id]]
    requires forall j: nat :: j in spaces && j != id ==> ImageOf(data', spaces[j]) == ImageOf(data, spaces[j])
    ensures Shown(free', data', spaces')
         == Machine(|free'|, Shown(free, data, spaces).images[id := ImageOf(data', spaces'[id])])
  {
    hide ImageOf;
  }

  method DoCreate(k: Memory, op: Op) returns (r: Reply)
    requires Good(k) && Applies(See(k), op) && op.Create?
    modifies k
    ensures r == Answer(old(See(k)), op) && Good(k) && See(k) == After(old(See(k)), op)
  {
    hide WorldOk, FreeOk, Covered, Unshared;
    ghost var data, spaces := k.data, k.spaces;
    var ok := k.SetupPgdir(op.id);
    if !ok {
      return Short;
    }
    EmptyCovered(k.spaces[op.id]);
    NoEntriesAdded(spaces, k.spaces, op.id);
    ShownBut(old(k.free), data, spaces, k.free, data, k.spaces, op.id);
    assert ImageOf(data, k.spaces[op.id]) == Image([], {}, map[]);
    return Done;
  }

  lemma NoEntriesAdded(a: map<nat, Space>, b: map<nat, Space>, id: nat)
    requires Unshared(a) && id in b && b == a[id := b[id]] && (id in a ==> b[id].ptes == a[id].ptes)
    requires id !in a ==> b[id].ptes == map[]
    ensures Unshared(b)
  {
    FewerEntries(a, b);
  }

  method DoMap(k: Memory, op: Op) returns (r: Reply)
    requires Good(k) && Applies(See(k), op) && op.Map?
    modifies k
    ensures r == Answer(old(See(k)), op) && Good(k) && See(k) == After(old(See(k)), op)
  {
    hide WorldOk, FreeOk, Covered, Unshared, MapVerdict, Inserted, FirstPage, LastPage;
    ghost var data, spaces := k.data, k.spaces;
    var v := k.MmMap(op.id, op.addr, op.len, op.flags, op.granted);
    match v {
      case Invalid => return Refused;
      case NoVma => return Short;
      case Overlap => return Halted;
      case Made =>
        NoEntriesAdded(spaces, k.spaces, op.id);
        ShownBut(old(k.free), data, spaces, k.free, data, k.spaces, op.id);
        return Done;
    }
  }

  method DoTouch(k: Memory, op: Op) returns (r: Reply)
    requires Good(k) && Applies(See(k), op) && op.Touch?
    modifies k
    ensures r == Answer(old(See(k)), op) && Good(k) && See(k) == After(old(See(k)), op)
  {
    hide WorldOk, FreeOk, Covered, Unshared, InSome, PageAsks, TableOf;
    ghost var w, id := k.W(), op.id;
    var ok, f := k.PgdirAllocPage(op.id, op.v, op.perm, op.page);
    if !ok {
      return Short;
    }
    FreshSeen(w, f, op.page);
    ShownBut(old(k.free), w.data, w.spaces, k.free, k.data, k.spaces, id);
    SlotSeen(k.data, w.spaces[id], k.spaces[id], op.v, f, Present(op.perm));
    hide Present;
    return Done;
  }

  lemma SlotSeen(data: map<nat, Page>, s: Space, t: Space, v: nat, f: nat, perm: nat)
    requires t == s.(tables := t.tables, ptes := s.ptes[v := Pte(f, perm)])
    ensures ImageOf(data, t) == Image(s.vmas, t.tables.Keys, ImageOf(data, s).slots[v := Slot(perm, PageAt(data, f))])
  {
    assert ImageOf(data, t).slots == ImageOf(data, s).slots[v := Slot(perm, PageAt(data, f))];
  }

  /** Filling a free frame shows nowhere. */
  lemma FreshSeen(w: World, f: nat, page: Page)
    requires WorldOk(w) && f in w.use && w.use[f] == Free
    ensures forall j: nat :: j in w.spaces ==> ImageOf(w.data[f := page], w.spaces[j]) == ImageOf(w.data, w.spaces[j])
    ensures forall j: nat, x: nat :: Entry(w.spaces, j, x) ==> w.spaces[j].ptes[x].frame != f
  {
    hide WorldOk;
    forall j: nat, x: nat | Entry(w.spaces, j, x)
      ensures w.spaces[j].ptes[x].frame != f
    {
      PteAt(w, j, x);
    }
    forall j: nat | j in w.spaces
      ensures ImageOf(w.data[f := page], w.spaces[j]) == ImageOf(w.data, w.spaces[j])
    {
      assert forall x: nat :: x in w.spaces[j].ptes ==> Entry(w.spaces, j, x);
      ImageSame(w.data, w.data[f := page], w.spaces[j]);
    }
  }

  method DoWrite(k: Memory, op: Op) returns (r: Reply)
    requires Good(k) && Applies(See(k), op) && op.Write?
    modifies k
    ensures r == Answer(old(See(k)), op) && Good(k) && See(k) == After(old(See(k)), op)
  {
    hide WorldOk, FreeOk, Covered, Unshared;
    ghost var data, spaces := k.data, k.spaces;
    k.Store(op.id, op.v, op.page);
    StoreSeen(data, spaces, op.id, op.v, op.page);
    ShownBut(k.free, data, spaces, k.free, k.data, spaces, op.id);
    return Done;
  }

  /** A store shows at its own address only. */
  lemma StoreSeen(data: map<nat, Page>, spaces: map<nat, Space>, id: nat, v: nat, page: Page)
    requires Unshared(spaces) && Entry(spaces, id, v)
    ensures var data' := data[spaces[id].ptes[v].frame := page];
            && (forall j: nat :: j in spaces && j != id ==> ImageOf(data', spaces[j]) == ImageOf(data, spaces[j]))
            && var i := ImageOf(data, spaces[id]);
            v in i.slots && ImageOf(data', spaces[id]) == i.(slots := i.slots[v := i.slots[v].(page := page)])
  {
    hide ImageOf;
    var f := spaces[id].ptes[v].frame;
    var data' := data[f := page];
    forall j: nat | j in spaces && j != id
      ensures ImageOf(data', spaces[j]) == ImageOf(data, spaces[j])
    {
      assert forall x: nat :: x in spaces[j].ptes ==> Entry(spaces, j, x);
      ImageSame(data, data', spaces[j]);
    }
    forall x: nat | x in spaces[id].ptes && x != v
      ensures spaces[id].ptes[x].frame != f
    {
      assert Entry(spaces, id, x);
    }
    OwnSeen(data, spaces[id], v, page);
  }

  lemma OwnSeen(data: map<nat, Page>, s: Space, v: nat, page: Page)
    requires v in s.ptes && forall x: nat :: x in s.ptes && x != v ==> s.ptes[x].frame != s.ptes[v].frame
    ensures var i := ImageOf(data, s);
            && v in i.slots
            && ImageOf(data[s.ptes[v].frame := page], s) == i.(slots := i.slots[v := i.slots[v].(page := page)])
  {
    var i := ImageOf(data, s);
    assert ImageOf(data[s.ptes[v].frame := page], s).slots == i.slots[v := i.slots[v].(page := page)];
  }

  method DoFork(k: Memory, op: Op) returns (r: Reply)
    requires Good(k) && Applies(See(k), op) && op.Fork?
    modifies k
    ensures r == Answer(old(See(k)), op)
    ensures r != Halted ==> Good(k) && See(k) == After(old(See(k)), op)
  {
    hide WorldOk, FreeOk, Covered, Unshared, CopyAsks, Fate, TablesOf, KeepsData, Copied;
    ghost var w, child, parent := k.W(), op.child, op.parent;
    assert See(k).images[parent].slots.Keys == k.spaces[parent].ptes.Keys;
    var s := k.CopyMm(op.child, op.parent);
    match s {
      case Panic => return Halted;
      case NoMem =>
        OthersSeen(w, k.W(), child);
        return Short;
      case Ok =>
        ForkUnshared(w, k.W(), child, parent);
        OthersSeen(w, k.W(), child);
        CopySeen(k.W(), child, parent);
        ShownBut(old(k.free), w.data, w.spaces, k.free, k.data, k.spaces, child);
        return Done;
    }
  }

  lemma OthersSeen(w: World, u: World, child: nat)
    requires KeepsData(w, u, child)
    ensures forall j: nat :: j in w.spaces && j != child ==>
              ImageOf(u.data, w.spaces[j]) == ImageOf(w.data, w.spaces[j])
  {
    forall j: nat | j in w.spaces && j != child
      ensures ImageOf(u.data, w.spaces[j]) == ImageOf(w.data, w.spaces[j])
    {
      forall x: nat | x in w.spaces[j].ptes
        ensures PageAt(u.data, w.spaces[j].ptes[x].frame) == PageAt(w.data, w.spaces[j].ptes[x].frame)
      {
        assert SameAt(w, u, j, x);
      }
      ImageSame(w.data, u.data, w.spaces[j]);
    }
  }

  lemma CopySeen(u: World, child: nat, parent: nat)
    requires child in u.spaces && parent in u.spaces && forall v: nat :: Copied(u, parent, child, v)
    requires u.spaces[child].vmas == u.spaces[parent].vmas
    requires u.spaces[child].tables.Keys == TablesOf(u.spaces[parent].ptes.Keys)
    ensures ImageOf(u.data, u.spaces[child]) == Copy(ImageOf(u.data, u.spaces[parent]))
  {
    hide TablesOf;
    var s, t := u.spaces[parent], u.spaces[child];
    var i := ImageOf(u.data, s);
    assert i.slots.Keys == s.ptes.Keys;
    forall v: nat
      ensures v in t.ptes <==> v in s.ptes
      ensures v in t.ptes ==>
                ImageOf(u.data, t).slots[v] == Slot(UserBits(s.ptes[v].perm), PageAt(u.data, s.ptes[v].frame))
    {
      assert Copied(u, parent, child, v);
      if v in t.ptes {
        UserBitsOnly(s.ptes[v].perm, t.ptes[v].perm);
      }
    }
    assert ImageOf(u.data, t).slots == Copy(i).slots;
  }

  lemma ForkUnshared(w: World, u: World, child: nat, parent: nat)
    requires WorldOk(u) && Unshared(w.spaces) && child !in w.spaces && child in u.spaces
    requires u.spaces == w.spaces[child := u.spaces[child]] && forall v: nat :: Copied(u, parent, child, v)
    ensures Unshared(u.spaces)
  {
    hide WorldOk;
    forall id: nat, v: nat, j: nat, x: nat |
      Entry(u.spaces, id, v) && Entry(u.spaces, j, x) && u.spaces[id].ptes[v].frame == u.spaces[j].ptes[x].frame
      ensures id == j && v == x
    {
      PteAt(u, id, v);
      PteAt(u, j, x);
      assert Copied(u, parent, child, v) && Copied(u, parent, child, x);
      assert id != child && j != child ==> Entry(w.spaces, id, v) && Entry(w.spaces, j, x);
    }
  }

  method DoEnd(k: Memory, op: Op) returns (r: Reply)
    requires Good(k) && Applies(See(k), op) && op.End?
    modifies k
    ensures r == Answer(old(See(k)), op) && Good(k) && See(k) == After(old(See(k)), op)
  {
    hide WorldOk, FreeOk, Covered, Unshared, KeepsData;
    ghost var spaces := k.spaces;
    SizeOf(k.data, k.spaces[op.id]);
    k.Exit(op.id);
    FewerEntries(spaces, k.spaces);
    return Done;
  }

  lemma SizeOf(data: map<nat, Page>, s: Space)
    ensures Size(ImageOf(data, s)) == 1 + |s.tables| + |s.ptes|
  {
    assert ImageOf(data, s).slots.Keys == s.ptes.Keys;
    assert |s.tables.Keys| == |s.tables| && |s.ptes.Keys| == |s.ptes|;
  }

  method DoOp(k: Memory, op: Op) returns (r: Reply)
    requires Good(k) && Applies(See(k), op)
    modifies k
    ensures r == Answer(old(See(k)), op)
    ensures r != Halted ==> Good(k) && See(k) == After(old(See(k)), op)
  {
    hide Good, See, Answer, After, Applies;
    match op {
      case Create(_) => r := DoCreate(k, op);
      case Map(_, _, _, _, _) => r := DoMap(k, op);
      case Touch(_, _, _, _) => r := DoTouch(k, op);
      case Write(_, _, _) => r := DoWrite(k, op);
      case Fork(_, _) => r := DoFork(k, op);
      case End(_) => r := DoEnd(k, op);
    }
  }

  /** Whether the calls an operation stands for can be made at all. */
  method CanDo(k: Memory, op: Op) returns (b: bool)
    ensures b <==> Applies(See(k), op)
  {
    match op {
      case Create(id) => b := id !in k.spaces;
      case Map(id, _, _, _, _) => b := id in k.spaces;
      case Touch(id, v, _, _) =>
        if id !in k.spaces {
          return false;
        }
        b := FindArea(k.spaces[id].vmas, v);
      case Write(id, v, _) => b := id in k.spaces && v in k.spaces[id].ptes;
      case Fork(child, parent) => b := parent in k.spaces && child !in k.spaces;
      case End(id) => b := id in k.spaces;
    }
  }

  /** Any run from an empty memory answers as the reference does, and leaves what the reference leaves. */
  method Execute(frames: set<nat>, ops: seq<Op>) returns (log: seq<Reply>, k: Memory)
    ensures log == Answers(Machine(|frames|, map[]), ops)
    ensures Halted !in log ==> Good(k) && See(k) == Final(Machine(|frames|, map[]), ops)
    ensures Halted !in log ==> |k.free| + Held(See(k).images) == |frames|
  {
    hide Answer, After, Good, Held, Answers, Final;
    NoFrames(|frames|, ops);
    k := new Memory(frames);
    EmptyGood(k);
    log := [];
    var i: nat := 0;
    ghost var start := Machine(|frames|, map[]);
    assert See(k) == start;
    hide See;
    assert ops[0..] == ops;
    while i < |ops|
      invariant i <= |ops| && Good(k) && fresh(k) && Halted !in log
      invariant Answers(start, ops) == log + Answers(See(k), ops[i..])
      invariant Final(start, ops) == Final(See(k), ops[i..])
    {
      ghost var m := See(k);
      Unrolled(m, ops, i);
      var can := CanDo(k, ops[i]);
      var r := Refused;
      if can {
        r := DoOp(k, ops[i]);
      } else {
        NotDone(m, ops[i]);
      }
      log := log + [r];
      if r == Halted {
        return;
      }
      i := i + 1;
    }
    NothingLeft(See(k), ops);
  }

  lemma NoFrames(n: nat, ops: seq<Op>)
    ensures var u := Final(Machine(n, map[]), ops); u.free + Held(u.images) == n
  {
    RunConserves(Machine(n, map[]), ops);
  }

  lemma Unrolled(m: Machine, ops: seq<Op>, i: nat)
    requires i < |ops|
    ensures var r := Answer(m, ops[i]);
            if r == Halted then Answers(m, ops[i..]) == [Halted] && Final(m, ops[i..]) == m
            else Answers(m, ops[i..]) == [r] + Answers(After(m, ops[i]), ops[i + 1..])
                 && Final(m, ops[i..]) == Final(After(m, ops[i]), ops[i + 1..])
  {
    hide Answer, After;
    assert ops[i..][0] == ops[i] && ops[i..][1..] == ops[i + 1..];
  }

  lemma NothingLeft(m: Machine, ops: seq<Op>)
    ensures Answers(m, ops[|ops|..]) == [] && Final(m, ops[|ops|..]) == m
  {
  }

  lemma EmptyGood(k: Memory)
    requires k.Valid({}) && k.spaces == map[]
    ensures Good(k)
  {
  }

  lemma NotDone(m: Machine, op: Op)
    requires !Applies(m, op)
    ensures Answer(m, op) == Refused && After(m, op) == m
  {
  }

  // ----- frames are conserved -----

  /** The frames of all the address spaces together. */
  ghost function Held(images: map<nat, Image>): nat
    decreases |images|
  {
    if images == map[] then 0
    else
      var id :| id in images;
      Size(images[id]) + Held(images - {id})
  }

  lemma {:induction false} HeldTake(images: map<nat, Image>, id: nat)
    requires id in images
    ensures Held(images) == Size(images[id]) + Held(images - {id})
    decreases |images|
  {
    hide Size;
    var first :| first in images && Held(images) == Size(images[first]) + Held(images - {first});
    if first != id {
      HeldTake(images - {first}, id);
      HeldTake(images - {id}, first);
      assert images - {first} - {id} == images - {id} - {first};
    }
  }

  lemma HeldPut(images: map<nat, Image>, id: nat, i: Image)
    ensures Held(images[id := i]) == Size(i) + Held(images - {id})
  {
    hide Size, Held;
    HeldTake(images[id := i], id);
    assert images[id := i] - {id} == images - {id};
  }

  /** The pages of every address space lie in its areas. */
  ghost predicate Sound(m: Machine) {
    forall id: nat :: id in m.images ==> InAreas(m.images[id].slots.Keys, m.images[id].vmas)
  }

  lemma {:induction false} InsertPlace(vmas: seq<Vma>, a: Vma) returns (k: nat)
    ensures k <= |vmas| && (forall i: nat :: i < k ==> vmas[i].start <= a.start)
            && (k < |vmas| ==> a.start < vmas[k].start)
  {
    k := 0;
    while k < |vmas| && vmas[k].start <= a.start
      invariant k <= |vmas| && forall i: nat :: i < k ==> vmas[i].start <= a.start
    {
      k := k + 1;
    }
  }

  lemma MapSound(mapped: set<nat>, vmas: seq<Vma>, a: Vma)
    requires InAreas(mapped, vmas) && a.start < a.end && Apart(vmas, a)
    ensures InAreas(mapped, Inserted(vmas, a))
  {
    var k := InsertPlace(vmas, a);
    InsertedAt(vmas, a, k);
    var areas := vmas[..k] + [a] + vmas[k..];
    InsertedOk(vmas, a, k, areas);
    hide VmasOk, Inserted;
    forall v: nat | v in mapped
      ensures InSome(areas, v)
    {
      StillInSome(vmas, a, k, v);
    }
  }

  lemma StillInSome(vmas: seq<Vma>, a: Vma, k: nat, v: nat)
    requires k <= |vmas| && InSome(vmas, v)
    ensures InSome(vmas[..k] + [a] + vmas[k..], v)
  {
    var i: nat :| i < |vmas| && InVma(vmas[i], v);
    var areas := vmas[..k] + [a] + vmas[k..];
    assert InVma(areas[if i < k then i else i + 1], v);
  }

  lemma AfterSound(m: Machine, op: Op)
    requires Sound(m)
    ensures Sound(After(m, op))
  {
    hide InAreas, Fate, CopyAsks, PageAsks, TablesOf, Inserted, FirstPage, LastPage;
    if Answer(m, op) == Done {
      match op {
        case Create(_) => NothingInAreas();
        case Map(id, _, _, _, _) => MapSound(m.images[id].slots.Keys, m.images[id].vmas, Asked(op));
        case Touch(id, v, perm, page) =>
          var i := m.images[id];
          MoreInAreas(i.slots.Keys, i.vmas, v);
          assert i.slots[v := Slot(Present(perm), page)].Keys == i.slots.Keys + {v};
        case Write(id, v, page) =>
          var i := m.images[id];
          assert i.slots[v := i.slots[v].(page := page)].Keys == i.slots.Keys;
        case Fork(_, parent) => assert Copy(m.images[parent]).slots.Keys == m.images[parent].slots.Keys;
        case End(_) =>
      }
    }
  }

  lemma NothingInAreas()
    ensures InAreas({}, [])
    ensures forall none: map<nat, Slot> :: none == map[] ==> none.Keys == {}
  {
  }

  lemma MoreInAreas(mapped: set<nat>, vmas: seq<Vma>, v: nat)
    requires InAreas(mapped, vmas) && InSome(vmas, v)
    ensures InAreas(mapped + {v}, vmas)
  {
  }

  /** An operation moves frames between memory and the address spaces and loses none. */
  lemma Conserves(m: Machine, op: Op)
    requires Sound(m)
    ensures var u := After(m, op); u.free + Held(u.images) == m.free + Held(m.images)
  {
    hide Held, InAreas, Fate, CopyAsks, TablesOf, Inserted, FirstPage, LastPage, MapVerdict, InSome, TableOf;
    if Answer(m, op) == Done {
      match op {
        case Create(id) =>
          HeldPut(m.images, id, Image([], {}, map[]));
          assert m.images - {id} == m.images;
        case Map(id, _, _, _, _) =>
          HeldTake(m.images, id);
          HeldPut(m.images, id, m.images[id].(vmas := Inserted(m.images[id].vmas, Asked(op))));
        case Touch(id, v, perm, page) =>
          var i := m.images[id];
          HeldTake(m.images, id);
          HeldPut(m.images, id, Image(i.vmas, i.tables + {TableOf(v)}, i.slots[v := Slot(Present(perm), page)]));
          TouchSize(i, v, Slot(Present(perm), page));
        case Write(id, v, page) =>
          var i := m.images[id];
          HeldTake(m.images, id);
          HeldPut(m.images, id, i.(slots := i.slots[v := i.slots[v].(page := page)]));
          SlotCount(i.slots, v, i.slots[v].(page := page));
        case Fork(child, parent) =>
          HeldPut(m.images, child, Copy(m.images[parent]));
          assert m.images - {child} == m.images;
          FramesNeeded(m.images[parent].slots.Keys, m.images[parent].vmas);
          CopySize(m.images[parent]);
          SpentWithin(m, parent);
        case End(id) =>
          HeldTake(m.images, id);
      }
    }
  }

  lemma SlotCount(slots: map<nat, Slot>, v: nat, slot: Slot)
    ensures |slots[v := slot]| == |slots| + (if v in slots then 0 else 1)
  {
    assert slots[v := slot].Keys == slots.Keys + {v};
    assert |slots[v := slot].Keys| == |slots[v := slot]| && |slots.Keys| == |slots|;
  }

  lemma TouchSize(i: Image, v: nat, slot: Slot)
    ensures Size(Image(i.vmas, i.tables + {TableOf(v)}, i.slots[v := slot])) + (if v in i.slots then 1 else 0)
         == Size(i) + |PageAsks(i.tables, v)|
  {
    hide TableOf;
    SlotCount(i.slots, v, slot);
    assert TableOf(v) in i.tables ==> i.tables + {TableOf(v)} == i.tables;
  }

  lemma CopySize(i: Image)
    ensures Size(Copy(i)) == 1 + |i.slots.Keys| + |TablesOf(i.slots.Keys)|
  {
    hide TablesOf;
    assert Copy(i).slots.Keys == i.slots.Keys;
    assert |Copy(i).slots.Keys| == |Copy(i).slots|;
  }

  lemma SpentWithin(m: Machine, parent: nat)
    requires parent in m.images
    ensures var asks := CopyAsks(m.images[parent].slots.Keys, m.images[parent].vmas);
            Fate(asks, m.free) == Ok <==> |asks| <= m.free
  {
    hide CopyAsks;
  }

  /** No run loses a frame. */
  lemma {:induction false} RunConserves(m: Machine, ops: seq<Op>)
    requires Sound(m)
    ensures var u := Final(m, ops); u.free + Held(u.images) == m.free + Held(m.images)
    decreases |ops|
  {
    hide Sound, Answer, After, Held;
    if ops != [] && Answer(m, ops[0]) != Halted {
      AfterSound(m, ops[0]);
      Conserves(m, ops[0]);
      RunConserves(After(m, ops[0]), ops[1..]);
    }
  }

  /** Memory is whole again once every address space has ended. */
  lemma AllGivenBack(n: nat, ops: seq<Op>)
    requires Final(Machine(n, map[]), ops).images == map[]
    ensures Final(Machine(n, map[]), ops).free == n
  {
    hide Final;
    RunConserves(Machine(n, map[]), ops);
  }

  // ----- the panic happens -----

  /** A program of one page, forked. */
  function ForkOnce(page: Page): seq<Op> {
    [Create(0), Map(0, 0x80_0000, 4096, 7, true), Touch(0, 0x800, 7, page), Fork(1, 0)]
  }

  function OneArea(slots: map<nat, Slot>, tables: set<nat>): map<nat, Image> {
    map[0 := Image([Vma(0x800, 0x801, 7)], tables, slots)]
  }

  lemma SpaceMade(n: nat)
    requires n >= 1
    ensures var m, op := Machine(n, map[]), Create(0);
            Answer(m, op) == Done && After(m, op) == Machine(n - 1, map[0 := Image([], {}, map[])])
  {
  }

  lemma AreaMade(n: nat)
    ensures var m, op := Machine(n, map[0 := Image([], {}, map[])]), Map(0, 0x80_0000, 4096, 7, true);
            Answer(m, op) == Done && After(m, op) == Machine(n, OneArea(map[], {}))
  {
    var m, op := Machine(n, map[0 := Image([], {}, map[])]), Map(0, 0x80_0000, 4096, 7, true);
    assert Asked(op) == Vma(0x800, 0x801, 7);
    assert Inserted([], Asked(op)) == [Asked(op)];
    assert m.images[0].vmas == [];
  }

  lemma PageMade(n: nat, page: Page)
    requires n >= 2
    ensures var m, op := Machine(n, OneArea(map[], {})), Touch(0, 0x800, 7, page);
            Answer(m, op) == Done && After(m, op) == Machine(n - 2, OneArea(map[0x800 := Slot(7, page)], {2}))
  {
    var m, op := Machine(n, OneArea(map[], {})), Touch(0, 0x800, 7, page);
    assert InVma(m.images[0].vmas[0], 0x800);
    assert PageAsks({}, 0x800) == [ForTable, ForData];
    assert {} + {TableOf(0x800)} == {2};
  }

  lemma ForkAsked(n: nat, page: Page)
    ensures Answer(Machine(n, OneArea(map[0x800 := Slot(7, page)], {2})), Fork(1, 0))
         == if n < 2 then Short else if n == 2 then Halted else Done
  {
    var m := Machine(n, OneArea(map[0x800 := Slot(7, page)], {2}));
    assert m.images[0].slots.Keys == {0x800};
    assert RangeAsks({0x800}, {}, 0x800, 0x801) == [ForTable, ForData];
    var vmas, more := [Vma(0x800, 0x801, 7)], RangeHave({0x800}, {}, 0x800, 0x801);
    assert AreaAsks({0x800}, vmas, 0, more) == [];
    assert AreaAsks({0x800}, vmas, 1, {}) == [ForTable, ForData];
    assert CopyAsks({0x800}, vmas) == [ForDir, ForTable, ForData];
  }

  lemma Consed(m: Machine, op: Op, rest: seq<Op>)
    ensures Answers(m, [op] + rest)
         == if Answer(m, op) == Halted then [Halted] else [Answer(m, op)] + Answers(After(m, op), rest)
    ensures Answers(m, []) == [] && Answers(After(m, op), []) == []
  {
    hide Answer, After;
    assert ([op] + rest)[1..] == rest;
  }

  /** With five frames the fork panics, with fewer it is refused, with more it is done. */
  lemma ForkPanics(n: nat, page: Page)
    requires n >= 3
    ensures Answers(Machine(n, map[]), ForkOnce(page))
         == [Done, Done, Done, if n < 5 then Short else if n == 5 then Halted else Done]
  {
    hide Answer, After, OneArea, Answers;
    var area, touch, fork := Map(0, 0x80_0000, 4096, 7, true), Touch(0, 0x800, 7, page), Fork(1, 0);
    var m0, m1 := Machine(n, map[]), Machine(n - 1, map[0 := Image([], {}, map[])]);
    var m2, m3 := Machine(n - 1, OneArea(map[], {})), Machine(n - 3, OneArea(map[0x800 := Slot(7, page)], {2}));
    SpaceMade(n);
    AreaMade(n - 1);
    PageMade(n - 1, page);
    ForkAsked(n - 3, page);
    Consed(m0, Create(0), [area, touch, fork]);
    Consed(m1, area, [touch, fork]);
    Consed(m2, touch, [fork]);
    Consed(m3, fork, []);
    assert ForkOnce(page) == [Create(0)] + [area, touch, fork] && [area, touch, fork] == [area] + [touch, fork];
    assert [touch, fork] == [touch] + [fork] && [fork] + [] == [fork];
  }
}
