/**
 `kmalloc` and `kfree`.  Every unit of the heap is tagged with what holds it, so that
 free units, small blocks and the list nodes of big blocks partition the heap.
 Addresses count 8-byte units, so a page-aligned address is a multiple of 512.
 */
module Kmalloc {
  import opened FreeList
  import opened Options
  import opened SlobList
  import opened SlobHeap
  import opened SlobAllocator

  datatype Tag = FreeUnit | UsedBy(block: nat)

  /** An allocated block of the heap: a small one with a header, or the list node of a big block. */
  datatype Block = Block(len: nat, small: bool)

  datatype Big = Big(node: nat, order: nat, pages: nat)

  type Tags = map<nat, Tag>
  type Blocks = map<nat, Block>

  const NODE_BYTES: nat := 12
  const SMALL_LIMIT: nat := PAGE_BYTES - UNIT_BYTES

  // ----- find_order -----

  function Pow2(n: nat): (p: nat)
    ensures p > 0
  {
    if n == 0 then 1 else 2 * Pow2(n - 1)
  }

  function Order(size: nat): nat {
    if size > PAGE_BYTES then 1 + Order(size / 2) else 0
  }

  method FindOrder(size: nat) returns (order: nat)
    ensures order == Order(size)
  {
    order := 0;
    var rest: nat := size;
    while rest > PAGE_BYTES
      invariant order + Order(rest) == Order(size)
    {
      rest := rest / 2;
      order := order + 1;
    }
  }

  /** The order is the least one whose 4097-byte pages exceed the size. */
  lemma {:induction false} OrderBounds(size: nat)
    ensures size < (PAGE_BYTES + 1) * Pow2(Order(size))
    ensures Order(size) > 0 ==> (PAGE_BYTES + 1) * Pow2(Order(size) - 1) <= size
  {
    if size > PAGE_BYTES {
      OrderBounds(size / 2);
      var o := Order(size / 2);
      if o > 0 {
        assert Pow2(o) == 2 * Pow2(o - 1);
      }
    }
  }

  lemma {:induction false} Pow2Grows(a: nat, b: nat)
    requires a < b
    ensures 2 * Pow2(a) <= Pow2(b)
  {
    if a + 1 < b {
      Pow2Grows(a, b - 1);
    }
  }

  /** The size lies just above `2^k` pages, by less than one byte a page. */
  ghost predicate InGap(size: nat, k: nat) {
    PAGE_BYTES * Pow2(k) < size < (PAGE_BYTES + 1) * Pow2(k)
  }

  lemma GapOrder(size: nat, k: nat)
    requires InGap(size, k)
    ensures k == Order(size)
  {
    hide Order;
    OrderBounds(size);
    var o := Order(size);
    if k < o {
      if k < o - 1 {
        Pow2Grows(k, o - 1);
      }
    } else if o < k {
      Pow2Grows(o, k);
    }
  }

  /** The block is too short for the request exactly when the size falls in a gap just above a power-of-two
      number of pages. */
  lemma BigCovers(size: nat)
    ensures size > PAGE_BYTES * Pow2(Order(size)) <==> exists k: nat :: InGap(size, k)
  {
    hide Order, Pow2;
    OrderBounds(size);
    if k: nat :| InGap(size, k) {
      GapOrder(size, k);
    } else {
      assert !InGap(size, Order(size));
    }
  }

  /** 8193 bytes get two pages. */
  lemma BigFallsShort()
    ensures Order(8193) == 1 && 8193 > PAGE_BYTES * Pow2(1)
  {
    assert Order(4096) == 0;
  }

  // ----- the heap invariant -----

  ghost predicate TagsOk(l: List, arena: nat, tag: Tags) {
    && (forall c: nat :: Free(l, c) <==> c in tag && tag[c] == FreeUnit)
    && arena + 1 !in tag && (arena > 0 ==> arena - 1 !in tag)
  }

  ghost predicate Owns(tag: Tags, a: nat, n: nat) {
    forall c: nat :: In(a, n, c) ==> c in tag && tag[c] == UsedBy(a)
  }

  ghost predicate UsedOk(tag: Tags, used: Blocks) {
    && (forall a: nat :: a in used ==> used[a].len > 0 && Owns(tag, a, used[a].len))
    && (forall c: nat :: c in tag && tag[c].UsedBy? ==>
         tag[c].block in used && In(tag[c].block, used[tag[c].block].len, c))
  }

  /** The header of a small block still holds its size. */
  ghost predicate HeadersOk(l: List, used: Blocks) {
    forall a: nat :: a in used && used[a].small ==> a in l.units && l.units[a] == used[a].len
  }

  ghost predicate Outside(tag: Tags, p: nat, n: nat) {
    forall c: nat :: In(p, n, c) ==> c !in tag
  }

  predicate Disjoint(p: nat, n: nat, q: nat, m: nat) {
    p + n <= q || q + m <= p
  }

  function Extent(order: nat): nat {
    PAGE_UNITS * Pow2(order)
  }

  ghost predicate BigOk(tag: Tags, used: Blocks, b: Big) {
    b.node in used && used[b.node] == Block(2, false) && b.pages % PAGE_UNITS == 0
        && Outside(tag, b.pages, Extent(b.order))
  }

  predicate Separate(b: Big, d: Big) {
    b.node != d.node && Disjoint(b.pages, Extent(b.order), d.pages, Extent(d.order))
  }

  ghost predicate IsNode(bigs: seq<Big>, a: nat) {
    exists i: nat :: i < |bigs| && bigs[i].node == a
  }

  /** The list of big blocks; `pending` holds nodes taken from the heap that are not on it. */
  ghost predicate BigsOk(tag: Tags, used: Blocks, bigs: seq<Big>, pending: set<nat>) {
    && (forall i: nat :: i < |bigs| ==> BigOk(tag, used, bigs[i]))
    && (forall i: nat, j: nat :: i < j < |bigs| ==> Separate(bigs[i], bigs[j]))
    && (forall a: nat :: a in used && !used[a].small ==> a in pending || IsNode(bigs, a))
    && (forall a: nat :: a in pending ==> a in used && used[a] == Block(2, false) && !IsNode(bigs, a))
  }

  ghost predicate HeapOk(l: List, arena: nat, tag: Tags, used: Blocks, bigs: seq<Big>, pending: set<nat>) {
    TagsOk(l, arena, tag) && UsedOk(tag, used) && HeadersOk(l, used) && BigsOk(tag, used, bigs, pending)
  }

  function Cells(p: nat, n: nat): set<nat> {
    set c: nat {:trigger In(p, n, c)} | p <= c < p + n && In(p, n, c)
  }

  function Retag(tag: Tags, p: nat, n: nat, t: Tag): Tags {
    map c: nat | c in tag.Keys + Cells(p, n) :: if In(p, n, c) then t else tag[c]
  }

  // ----- taking a block -----

  /** What the page allocator promises of the pages it hands out. */
  ghost predicate Fresh(l: List, arena: nat, tag: Tags, bigs: seq<Big>, p: nat, n: nat) {
    && n > 0 && p % PAGE_UNITS == 0 && Outside(tag, p, n) && p != arena + 1 && p + n != arena
    && (forall i: nat :: i < |bigs| ==> Disjoint(p, n, bigs[i].pages, Extent(bigs[i].order)))
  }

  function GrownTags(tag: Tags, grew: bool, page: Option<nat>): Tags {
    if grew && page.Some? then Retag(tag, page.value, PAGE_UNITS, FreeUnit) else tag
  }

  function ClaimedTags(tag: Tags, a: nat, u: nat, grew: bool, page: Option<nat>): Tags {
    Retag(GrownTags(tag, grew, page), a, u, UsedBy(a))
  }

  /** The heap and the page it took are what the new block was cut from. */
  ghost predicate Claim(l: List, m: List, arena: nat, tag: Tags, a: nat, u: nat, grew: bool, page: Option<nat>) {
    && TagsOk(l, arena, tag) && Free(l, arena) && u > 0
    && Allocated(l, m, a, u, grew, page)
    && (grew ==> Outside(tag, page.value, PAGE_UNITS) && page.value != arena + 1 && page.value + PAGE_UNITS != arena)
  }

  /** A fresh page is foreign to the list. */
  lemma FreshForeign(l: List, arena: nat, tag: Tags, bigs: seq<Big>, p: nat, n: nat)
    requires TagsOk(l, arena, tag) && Fresh(l, arena, tag, bigs, p, n)
    ensures Foreign(l, arena, p, n)
  {
    hide Free;
  }

  lemma ClaimedFrom(l: List, m: List, arena: nat, tag: Tags, a: nat, u: nat, grew: bool, page: Option<nat>)
    requires Claim(l, m, arena, tag, a, u, grew, page)
    ensures forall c: nat :: In(a, u, c) ==>
              c in GrownTags(tag, grew, page) && GrownTags(tag, grew, page)[c] == FreeUnit
    ensures forall c: nat :: c in tag && tag[c].UsedBy? ==>
              !In(a, u, c) && c in ClaimedTags(tag, a, u, grew, page) && ClaimedTags(tag, a, u, grew, page)[c] == tag[c]
  {
    hide Free;
  }

  lemma ClaimTags(l: List, m: List, arena: nat, tag: Tags, a: nat, u: nat, grew: bool, page: Option<nat>)
    requires Claim(l, m, arena, tag, a, u, grew, page)
    ensures TagsOk(m, arena, ClaimedTags(tag, a, u, grew, page))
  {
    hide Free;
    ClaimedFrom(l, m, arena, tag, a, u, grew, page);
    assert arena in tag;
    assert grew ==> !In(page.value, PAGE_UNITS, arena);
  }

  /** `t` differs from `tag` in who uses what only by the block having been taken. */
  ghost predicate Takes(tag: Tags, t: Tags, a: nat, u: nat) {
    && (forall c: nat :: c in tag && tag[c].UsedBy? ==> !In(a, u, c) && c in t && t[c] == tag[c])
    && (forall c: nat :: c in t && t[c].UsedBy? && !In(a, u, c) ==> c in tag && tag[c] == t[c])
    && Owns(t, a, u)
  }

  lemma ClaimTakes(l: List, m: List, arena: nat, tag: Tags, a: nat, u: nat, grew: bool, page: Option<nat>)
    requires Claim(l, m, arena, tag, a, u, grew, page)
    ensures Takes(tag, ClaimedTags(tag, a, u, grew, page), a, u)
  {
    ClaimedFrom(l, m, arena, tag, a, u, grew, page);
  }

  lemma TakeUsed(tag: Tags, t: Tags, used: Blocks, a: nat, u: nat, small: bool)
    requires UsedOk(tag, used) && Takes(tag, t, a, u) && u > 0
    ensures a !in used
    ensures UsedOk(t, used[a := Block(u, small)])
  {
    assert In(a, u, a);
    if a in used {
      assert In(a, used[a].len, a);
    }
    var after := used[a := Block(u, small)];
    forall d: nat | d in after
      ensures after[d].len > 0 && Owns(t, d, after[d].len)
    {
      if d != a {
        assert Owns(tag, d, used[d].len);
      }
    }
    forall c: nat | c in t && t[c].UsedBy?
      ensures t[c].block in after && In(t[c].block, after[t[c].block].len, c)
    {
      if !In(a, u, c) {
        assert c in tag && tag[c] == t[c];
      }
    }
  }

  lemma ClaimHeaders(l: List, m: List, arena: nat, tag: Tags, used: Blocks, a: nat, u: nat, grew: bool,
                     page: Option<nat>, small: bool)
    requires Claim(l, m, arena, tag, a, u, grew, page) && UsedOk(tag, used) && HeadersOk(l, used)
    ensures HeadersOk(m, used[a := Block(u, small)])
  {
    hide Free;
    forall d: nat | d in used && used[d].small
      ensures d in l.units && !Free(l, d) && (grew ==> !In(page.value, PAGE_UNITS, d))
    {
      assert In(d, used[d].len, d);
    }
  }

  lemma ClaimBig(l: List, m: List, arena: nat, tag: Tags, used: Blocks, b: Big, a: nat, u: nat, grew: bool,
                 page: Option<nat>, small: bool)
    requires Claim(l, m, arena, tag, a, u, grew, page) && BigOk(tag, used, b) && a !in used
    requires grew ==> Disjoint(page.value, PAGE_UNITS, b.pages, Extent(b.order))
    ensures BigOk(ClaimedTags(tag, a, u, grew, page), used[a := Block(u, small)], b)
  {
    ClaimedFrom(l, m, arena, tag, a, u, grew, page);
    hide Free, Claim, Extent;
  }

  lemma ClaimBigs(l: List, m: List, arena: nat, tag: Tags, used: Blocks, bigs: seq<Big>, pending: set<nat>,
                  a: nat, u: nat, grew: bool, page: Option<nat>, small: bool)
    requires Claim(l, m, arena, tag, a, u, grew, page) && BigsOk(tag, used, bigs, pending) && a !in used
             && (!small ==> u == 2)
    requires grew ==> Fresh(l, arena, tag, bigs, page.value, PAGE_UNITS)
    ensures BigsOk(ClaimedTags(tag, a, u, grew, page), used[a := Block(u, small)], bigs, if small then pending
              else pending + {a})
  {
    hide Free, ClaimedTags, Extent, Separate, Disjoint, TagsOk, Allocated, Outside;
    var t, after := ClaimedTags(tag, a, u, grew, page), used[a := Block(u, small)];
    forall i: nat | i < |bigs|
      ensures BigOk(t, after, bigs[i])
    {
      ClaimBig(l, m, arena, tag, used, bigs[i], a, u, grew, page, small);
    }
  }

  /** Taking a block keeps the heap invariant; the block was free, or part of the page the heap grew by. */
  lemma ClaimKeeps(l: List, m: List, arena: nat, tag: Tags, used: Blocks, bigs: seq<Big>, pending: set<nat>,
                   a: nat, u: nat, grew: bool, page: Option<nat>, small: bool)
    requires HeapOk(l, arena, tag, used, bigs, pending) && Free(l, arena) && u > 0 && (!small ==> u == 2)
    requires Allocated(l, m, a, u, grew, page)
    requires grew ==> Fresh(l, arena, tag, bigs, page.value, PAGE_UNITS)
    ensures a !in used
    ensures HeapOk(m, arena, ClaimedTags(tag, a, u, grew, page), used[a := Block(u, small)], bigs, if small then pending
              else pending + {a})
    ensures ClaimedTags(tag, a, u, grew, page).Keys == tag.Keys + if grew then Cells(page.value, PAGE_UNITS) else {}
  {
    hide Free, TagsOk, UsedOk, HeadersOk, BigsOk, Allocated, Outside, Takes;
    assert grew ==> page.Some? by {
      Grew(l, m, a, u, grew, page);
    }
    assert Claim(l, m, arena, tag, a, u, grew, page);
    ClaimTags(l, m, arena, tag, a, u, grew, page);
    ClaimTakes(l, m, arena, tag, a, u, grew, page);
    TakeUsed(tag, ClaimedTags(tag, a, u, grew, page), used, a, u, small);
    ClaimHeaders(l, m, arena, tag, used, a, u, grew, page, small);
    ClaimBigs(l, m, arena, tag, used, bigs, pending, a, u, grew, page, small);
    ClaimedFrom(l, m, arena, tag, a, u, grew, page);
  }

  lemma Grew(l: List, m: List, a: nat, u: nat, grew: bool, page: Option<nat>)
    requires Allocated(l, m, a, u, grew, page)
    ensures grew ==> page.Some?
  {
  }

  // ----- giving a block back -----

  /** The block may be freed: it is held, and no node of the big list. */
  lemma UsedForeign(l: List, arena: nat, tag: Tags, used: Blocks, a: nat)
    requires TagsOk(l, arena, tag) && UsedOk(tag, used) && a in used
    ensures Foreign(l, arena, a, used[a].len)
  {
    hide Free;
    var n := used[a].len;
    assert Owns(tag, a, n) && In(a, n, a) && In(a, n, a + n - 1);
  }

  lemma ReturnTags(l: List, m: List, arena: nat, tag: Tags, a: nat, n: nat)
    requires TagsOk(l, arena, tag) && Gained(l, m, a, n) && Owns(tag, a, n)
    ensures TagsOk(m, arena, Retag(tag, a, n, FreeUnit))
    ensures Retag(tag, a, n, FreeUnit).Keys == tag.Keys
  {
    hide Free;
  }

  lemma ReturnUsed(tag: Tags, used: Blocks, a: nat)
    requires UsedOk(tag, used) && a in used
    ensures UsedOk(Retag(tag, a, used[a].len, FreeUnit), used - {a})
  {
    var n := used[a].len;
    var t := Retag(tag, a, n, FreeUnit);
    assert Owns(tag, a, n);
    forall d: nat | d in used && d != a
      ensures Owns(t, d, used[d].len)
    {
      assert Owns(tag, d, used[d].len);
    }
    forall c: nat | c in t && t[c].UsedBy?
      ensures t[c].block in used && t[c].block != a && In(t[c].block, used[t[c].block].len, c)
    {
      assert c in tag && tag[c] == t[c];
    }
  }

  lemma ReturnHeaders(l: List, m: List, arena: nat, tag: Tags, used: Blocks, a: nat)
    requires TagsOk(l, arena, tag) && UsedOk(tag, used) && HeadersOk(l, used) && a in used
             && Gained(l, m, a, used[a].len)
    ensures HeadersOk(m, used - {a})
  {
    hide Free;
    assert Owns(tag, a, used[a].len);
    forall d: nat | d in used && d != a && used[d].small
      ensures d in m.units && m.units[d] == l.units[d]
    {
      assert Owns(tag, d, used[d].len) && In(d, used[d].len, d);
      assert !Free(l, d);
    }
  }

  lemma ReturnBigs(tag: Tags, used: Blocks, bigs: seq<Big>, pending: set<nat>, a: nat)
    requires BigsOk(tag, used, bigs, pending) && a in used && (used[a].small || a in pending)
             && Owns(tag, a, used[a].len)
    ensures BigsOk(Retag(tag, a, used[a].len, FreeUnit), used - {a}, bigs, pending - {a})
  {
    hide Extent, Separate;
    var t := Retag(tag, a, used[a].len, FreeUnit);
    forall i: nat | i < |bigs|
      ensures BigOk(t, used - {a}, bigs[i])
    {
      assert BigOk(tag, used, bigs[i]) && IsNode(bigs, bigs[i].node);
    }
  }

  /** Giving a block back keeps the heap invariant, and the heap the same units. */
  lemma ReturnKeeps(l: List, m: List, arena: nat, tag: Tags, used: Blocks, bigs: seq<Big>, pending: set<nat>, a: nat)
    requires HeapOk(l, arena, tag, used, bigs, pending) && a in used && (used[a].small || a in pending)
    requires Gained(l, m, a, used[a].len)
    ensures HeapOk(m, arena, Retag(tag, a, used[a].len, FreeUnit), used - {a}, bigs, pending - {a})
    ensures Retag(tag, a, used[a].len, FreeUnit).Keys == tag.Keys
  {
    hide Free, TagsOk, HeadersOk, BigsOk, Gained, Retag, Owns;
    assert Owns(tag, a, used[a].len);
    hide UsedOk;
    ReturnTags(l, m, arena, tag, a, used[a].len);
    ReturnUsed(tag, used, a);
    ReturnHeaders(l, m, arena, tag, used, a);
    ReturnBigs(tag, used, bigs, pending, a);
  }

  // ----- the list of big blocks -----

  lemma Enlist(tag: Tags, used: Blocks, bigs: seq<Big>, b: Big)
    requires BigsOk(tag, used, bigs, {b.node})
    requires b.pages % PAGE_UNITS == 0 && Outside(tag, b.pages, Extent(b.order))
    requires forall i: nat :: i < |bigs| ==> Disjoint(b.pages, Extent(b.order), bigs[i].pages, Extent(bigs[i].order))
    ensures BigsOk(tag, used, [b] + bigs, {})
  {
    hide Extent, Outside;
    var l := [b] + bigs;
    forall i: nat | i < |bigs|
      ensures bigs[i].node != b.node
    {
      assert b.node in {b.node};
    }
    forall a: nat | a in used && !used[a].small
      ensures IsNode(l, a)
    {
      if IsNode(bigs, a) {
        var i: nat :| i < |bigs| && bigs[i].node == a;
        assert l[i + 1].node == a;
      } else {
        assert l[0].node == a;
      }
    }
    forall i: nat, j: nat | i < j < |l|
      ensures Separate(l[i], l[j])
    {
      if i > 0 {
        assert Separate(bigs[i - 1], bigs[j - 1]);
      }
    }
  }

  /** Each of the `2^order` pages of a big block, 512 units to a page, is its own: outside the heap, so neither free nor
      in a small block, and in no other big block. */
  lemma BigUnits(l: List, arena: nat, tag: Tags, used: Blocks, bigs: seq<Big>, pending: set<nat>, i: nat, c: nat)
    requires HeapOk(l, arena, tag, used, bigs, pending) && i < |bigs|
    requires bigs[i].pages <= c < bigs[i].pages + 512 * Pow2(bigs[i].order)
    ensures c !in tag && !Free(l, c) && bigs[i].pages % 512 == 0
    ensures forall j: nat :: j < |bigs| && j != i ==> !(bigs[j].pages <= c < bigs[j].pages + 512 * Pow2(bigs[j].order))
  {
    hide Free, UsedOk, HeadersOk;
    assert BigOk(tag, used, bigs[i]) && In(bigs[i].pages, Extent(bigs[i].order), c);
    forall j: nat | j < |bigs| && j != i
      ensures Separate(bigs[i], bigs[j]) || Separate(bigs[j], bigs[i])
    {
      assert if i < j then Separate(bigs[i], bigs[j]) else Separate(bigs[j], bigs[i]);
    }
  }

  lemma Delist(tag: Tags, used: Blocks, bigs: seq<Big>, k: nat)
    requires BigsOk(tag, used, bigs, {}) && k < |bigs|
    ensures BigsOk(tag, used, bigs[..k] + bigs[k + 1..], {bigs[k].node})
  {
    hide Extent, Outside, Disjoint;
    var l := bigs[..k] + bigs[k + 1..];
    assert BigOk(tag, used, bigs[k]);
    forall i: nat | i < |l|
      ensures BigOk(tag, used, l[i]) && l[i].node != bigs[k].node
    {
      assert if i < k then Separate(bigs[i], bigs[k]) else Separate(bigs[k], bigs[i + 1]);
    }
    hide BigOk;
    forall i: nat, j: nat | i < j < |l|
      ensures Separate(l[i], l[j])
    {
      assert Separate(bigs[if i < k then i else i + 1], bigs[if j < k then j else j + 1]);
    }
    hide Separate;
    forall a: nat | a in used && !used[a].small && a != bigs[k].node
      ensures IsNode(l, a)
    {
      NodeKept(bigs, k, l, a);
    }
  }

  lemma NodeKept(bigs: seq<Big>, k: nat, l: seq<Big>, a: nat)
    requires k < |bigs| && l == bigs[..k] + bigs[k + 1..] && IsNode(bigs, a) && a != bigs[k].node
    ensures IsNode(l, a)
  {
    var i: nat :| i < |bigs| && bigs[i].node == a;
    assert l[if i < k then i else i - 1].node == a;
  }

  /** A node's fields may be written: they are no part of the free list. */
  function Scribbled(l: List, a: nat, x: nat, y: nat): List {
    List(l.order, l.units[a := x], l.next[a := y])
  }

  lemma ScribbleList(l: List, arena: nat, a: nat, x: nat, y: nat)
    requires ListOk(l, arena) && !Free(l, a)
    ensures ListOk(Scribbled(l, a, x, y), arena)
    ensures forall c: nat :: Free(Scribbled(l, a, x, y), c) <==> Free(l, c)
  {
    var m := Scribbled(l, a, x, y);
    forall i: nat | i < |l.order|
      ensures l.order[i] != a && Sized(m.order, m.units, i) && LinkAt(m.order, m.next, i) && Apart(m.order, m.units, i)
    {
      HeadFree(l, i);
      assert Sized(l.order, l.units, i) && LinkAt(l.order, l.next, i) && Apart(l.order, l.units, i);
    }
    forall i: nat, j: nat | i < j < |l.order|
      ensures Clear(m.order, m.units, i, j)
    {
      assert Clear(l.order, l.units, i, j);
    }
    forall c: nat
      ensures Free(m, c) <==> Free(l, c)
    {
      if Free(l, c) {
        var i: nat :| Holds(l.order, l.units, i, c);
        assert Holds(m.order, m.units, i, c);
      }
      if Free(m, c) {
        var i: nat :| Holds(m.order, m.units, i, c);
        assert Holds(l.order, l.units, i, c);
      }
    }
  }

  lemma ScribbleKeeps(l: List, arena: nat, tag: Tags, used: Blocks, bigs: seq<Big>, pending: set<nat>, a: nat, x: nat,
                      y: nat)
    requires ListOk(l, arena) && HeapOk(l, arena, tag, used, bigs, pending) && a in pending
    ensures ListOk(Scribbled(l, a, x, y), arena)
    ensures HeapOk(Scribbled(l, a, x, y), arena, tag, used, bigs, pending)
  {
    hide ListOk, Free;
    assert Owns(tag, a, used[a].len) && In(a, used[a].len, a);
    assert !Free(l, a);
    ScribbleList(l, arena, a, x, y);
    assert !used[a].small;
  }

  // ----- kmalloc and kfree -----

  lemma ArenaFree(l: List, arena: nat)
    requires ListOk(l, arena)
    ensures Free(l, arena)
  {
    hide Ordered;
    var i :| 0 <= i < |l.order| && l.order[i] == arena;
    HeadFree(l, i);
  }

  /** A region that was fresh before the heap grew by another page is still outside it. */
  lemma StillOutside(l: List, arena: nat, tag: Tags, used: Blocks, bigs: seq<Big>, m: List, a: nat, u: nat,
                     grew: bool, page: Option<nat>, p: nat, n: nat)
    requires TagsOk(l, arena, tag) && Allocated(l, m, a, u, grew, page) && Outside(tag, p, n)
    requires grew ==> Disjoint(page.value, PAGE_UNITS, p, n)
    ensures Outside(ClaimedTags(tag, a, u, grew, page), p, n)
  {
    hide Free;
  }

  /** No small block with a payload has the address of a big one: its payload lies in the heap, and big blocks lie
      outside it. */
  lemma NotBig(tag: Tags, used: Blocks, bigs: seq<Big>, pending: set<nat>, block: nat, i: nat)
    requires UsedOk(tag, used) && BigsOk(tag, used, bigs, pending)
    requires IsSmall(used, block) && used[block - 1].len > 1 && i < |bigs|
    ensures bigs[i].pages != block
  {
    assert BigOk(tag, used, bigs[i]) && Owns(tag, block - 1, used[block - 1].len);
    assert In(block - 1, used[block - 1].len, block);
    assert In(bigs[i].pages, Extent(bigs[i].order), bigs[i].pages);
  }

  lemma OnlyArena(l: List)
    requires l.order == [5] && l.units == map[5 := 1, 511 := 1]
    ensures forall c: nat :: Free(l, c) <==> c == 5
  {
    assert Holds(l.order, l.units, 0, 5);
  }

  /** A block without payload can have one. */
  lemma EmptyBlockClash() returns (l: List, tag: Tags, used: Blocks, b: Big)
    ensures ListOk(l, 5) && HeapOk(l, 5, tag, used, [b], {}) && IsSmall(used, b.pages)
  {
    hide Free;
    l := List([5], map[5 := 1, 511 := 1], map[5 := 5]);
    OnlyArena(l);
    tag := map[5 := FreeUnit, 511 := UsedBy(511), 100 := UsedBy(100), 101 := UsedBy(100)];
    used := map[511 := Block(1, true), 100 := Block(2, false)];
    b := Big(100, 0, 512);
    assert [b][0].node == 100;
  }

  /** The address `kmalloc` returned for a big block. */
  ghost predicate IsBig(bigs: seq<Big>, block: nat) {
    exists i: nat :: i < |bigs| && bigs[i].pages == block
  }

  /** The address `kmalloc` returned for a small block. */
  predicate IsSmall(used: Blocks, block: nat) {
    block > 0 && block - 1 in used && used[block - 1].small
  }

  class Kheap {
    const slob: Slob
    var bigs: seq<Big>
    ghost var tag: Tags
    ghost var used: Blocks

    ghost predicate Ok(pending: set<nat>)
      reads this, slob
    {
      slob.Valid() && HeapOk(slob.L(), slob.arena, tag, used, bigs, pending)
    }

    ghost predicate Valid()
      reads this, slob
    {
      Ok({})
    }

    constructor (arena: nat)
      ensures Valid() && used == map[] && bigs == [] && tag == map[arena := FreeUnit]
    {
      slob := new Slob(arena);
      bigs, tag, used := [], map[arena := FreeUnit], map[];
      new;
      forall c: nat
        ensures Free(slob.L(), c) <==> c in tag && tag[c] == FreeUnit
      {
        if c == arena {
          assert Holds(slob.order, slob.units, 0, c);
        }
      }
    }

    /** A request for a single unit, and the search for it begins at the arena. */
    ghost predicate FindsArena(size: nat)
      reads this, slob
    {
      UnitsFor(size) == 1 && FirstTried(slob.L(), slob.slobfree) == slob.arena
    }

    /** The list with the arena cut out of the chain of pointers. */
    ghost predicate ArenaGone(l: List, m: List)
      reads this, slob
    {
      slob.arena in l.next && m == l.(next := l.next[slob.slobfree := l.next[slob.arena]])
    }

    method Take(size: nat, page: Option<nat>, small: bool) returns (r: Option<nat>, grew: bool)
      requires Valid() && UNIT_BYTES <= size < SMALL_LIMIT && (!small ==> size == NODE_BYTES)
      requires page.Some? ==> Fresh(slob.L(), slob.arena, tag, bigs, page.value, PAGE_UNITS)
      modifies this, slob
      ensures bigs == old(bigs) && (grew ==> page.Some?)
      ensures r.None? <==> page.None? && NothingFits(old(slob.L()), UnitsFor(size))
      ensures r.Some? ==> (grew <==> NothingFits(old(slob.L()), UnitsFor(size)))
      ensures r.None? ==> Valid() && tag == old(tag) && used == old(used) && slob.L() == old(slob.L()) && !grew
      ensures r == Some(slob.arena) <==> old(FindsArena(size))
      ensures old(FindsArena(size)) ==> slob.slobfree == old(slob.slobfree) && ArenaGone(old(slob.L()), slob.L())
      ensures old(FindsArena(size)) ==> tag == old(tag) && used == old(used) && !grew
      ensures r.Some? && !old(FindsArena(size)) ==> r.value !in old(used)
      ensures r.Some? && !old(FindsArena(size)) ==> used == old(used)[r.value := Block(UnitsFor(size), small)]
      ensures r.Some? && !old(FindsArena(size)) ==>
                tag == ClaimedTags(old(tag), r.value, UnitsFor(size), grew, page)
      ensures r.Some? && !old(FindsArena(size)) ==>
                tag.Keys == old(tag.Keys) + if grew then Cells(page.value, PAGE_UNITS) else {}
      ensures r.Some? && !old(FindsArena(size)) ==> Ok(if small then {} else {r.value})
      ensures r.Some? && !old(FindsArena(size)) ==>
                Allocated(old(slob.L()), slob.L(), r.value, UnitsFor(size), grew, page)
    {
      hide ListOk, HeapOk, Fresh, Foreign, Allocated, NothingFits, ClaimedTags, Cells;
      ghost var l, u := slob.L(), UnitsFor(size);
      if page.Some? {
        Foreigner(l, slob.arena, tag, used, bigs, {}, page.value, PAGE_UNITS);
      }
      ArenaFree(l, slob.arena);
      OneAlwaysFits(l, slob.arena);
      var panicked;
      r, grew, panicked := slob.SlobAlloc(size, page);
      if r.Some? && r.value != slob.arena {
        Grew(l, slob.L(), r.value, u, grew, page);
        ClaimKeeps(l, slob.L(), slob.arena, tag, used, bigs, {}, r.value, u, grew, page, small);
        tag := ClaimedTags(tag, r.value, u, grew, page);
        used := used[r.value := Block(u, small)];
        assert !small ==> {} + {r.value} == {r.value};
      }
    }

    method Give(b: nat, size: nat, ghost pending: set<nat>)
      requires Ok(pending) && b in used && (used[b].small || b in pending)
      requires if size == 0 then used[b].small else UnitsFor(size) == used[b].len
      modifies this, slob
      ensures Ok(pending - {b}) && bigs == old(bigs)
      ensures used == old(used) - {b} && tag == Retag(old(tag), b, old(used[b].len), FreeUnit)
              && tag.Keys == old(tag.Keys)
    {
      hide ListOk, TagsOk, UsedOk, HeadersOk, BigsOk, Foreign, Gained, Retag;
      UsedForeign(slob.L(), slob.arena, tag, used, b);
      if size == 0 {
        HeaderOf(slob.L(), used, b);
      }
      ghost var l, n := slob.L(), used[b].len;
      slob.SlobFree(b, size);
      ReturnKeeps(l, slob.L(), slob.arena, tag, used, bigs, pending, b);
      tag, used := Retag(tag, b, n, FreeUnit), used - {b};
    }

    /** Writes the two first words of a node, which used to be its block header. */
    method WriteNode(a: nat, order: nat, pages: nat)
      requires Ok({a})
      modifies slob
      ensures Ok({a}) && slob.L() == Scribbled(old(slob.L()), a, order, pages)
    {
      hide ListOk, HeapOk;
      ScribbleKeeps(slob.L(), slob.arena, tag, used, bigs, {a}, a, order, pages);
      slob.units := slob.units[a := order];
      slob.next := slob.next[a := pages];
    }

    /** `kmalloc(0)`, when the search begins at the arena. */
    ghost predicate TakesArena(size: nat)
      reads this, slob
    {
      size == 0 && FirstTried(slob.L(), slob.slobfree) == slob.arena
    }

    /** `page` and `region` are what the page allocator would answer. */
    method Kmalloc(size: nat, page: Option<nat>, region: Option<nat>)
      returns (r: Option<nat>, grew: bool, panicked: bool, ghost node: nat)
      requires Valid()
      requires page.Some? ==> Fresh(slob.L(), slob.arena, tag, bigs, page.value, PAGE_UNITS)
      requires region.Some? ==> Fresh(slob.L(), slob.arena, tag, bigs, region.value, Extent(Order(size)))
      requires page.Some? && region.Some? ==> Disjoint(page.value, PAGE_UNITS, region.value, Extent(Order(size)))
      modifies this, slob
      ensures old(TakesArena(size)) ==>
                r == Some(slob.arena + 1) && tag == old(tag) && used == old(used) && bigs == old(bigs)
      ensures old(TakesArena(size)) ==> slob.slobfree == old(slob.slobfree) && ArenaGone(old(slob.L()), slob.L())
      ensures !old(TakesArena(size)) ==> Valid()
      ensures panicked <==> 4080 <= size < 4088
      ensures panicked ==> r.None? && tag == old(tag) && slob.L() == old(slob.L()) && !grew
      ensures size < SMALL_LIMIT && !panicked ==>
                (r.None? <==> page.None? && NothingFits(old(slob.L()), UnitsFor(size + UNIT_BYTES)))
      ensures size < SMALL_LIMIT && r.Some? ==> (grew <==> NothingFits(old(slob.L()), UnitsFor(size + UNIT_BYTES)))
      ensures size >= SMALL_LIMIT ==>
                (r.None? <==> region.None? || (page.None? && NothingFits(old(slob.L()), UnitsFor(NODE_BYTES))))
      ensures size >= SMALL_LIMIT && r.Some? ==> (grew <==> NothingFits(old(slob.L()), UnitsFor(NODE_BYTES)))
      ensures tag.Keys == old(tag.Keys) + if grew && page.Some? then Cells(page.value, PAGE_UNITS) else {}
      ensures r.None? ==> used == old(used) && bigs == old(bigs)
      ensures r.Some? && !old(TakesArena(size)) ==> node !in old(used)
      ensures r.Some? && size < SMALL_LIMIT ==> r.value == node + 1 && bigs == old(bigs)
      ensures r.Some? && size < SMALL_LIMIT && !old(TakesArena(size)) ==>
                used == old(used)[node := Block(UnitsFor(size + UNIT_BYTES), true)]
      ensures r.Some? && size >= SMALL_LIMIT ==> r == region && bigs == [Big(node, Order(size), r.value)] + old(bigs)
      ensures r.Some? && size >= SMALL_LIMIT ==> used == old(used)[node := Block(2, false)]
    {
      hide ListOk, HeapOk, Fresh, Allocated, Retag, Cells, Extent, Disjoint, ClaimedTags, Order, NothingFits;
      panicked := false;
      // With its header the request runs into the assertion at the head of `slob_alloc`.
      if SMALL_LIMIT - UNIT_BYTES <= size < SMALL_LIMIT {
        return None, false, true, 0;
      }
      if size < SMALL_LIMIT {
        var m;
        m, grew := Take(size + UNIT_BYTES, page, true);
        node := if m.Some? then m.value else 0;
        return if m.Some? then Some(m.value + 1) else None, grew, false, node;
      }
      var bb;
      bb, grew := Take(NODE_BYTES, page, false);
      if bb.None? {
        return None, grew, false, 0;
      }
      node := bb.value;
      var order := FindOrder(size);
      if region.Some? {
        NewBig(old(slob.L()), slob.L(), slob.arena, old(tag), old(used), used, bigs, node, grew, page, region.value,
              order);
        WriteNode(bb.value, order, region.value);
        Listed(slob.L(), slob.arena, tag, used, bigs, Big(node, order, region.value));
        bigs := [Big(bb.value, order, region.value)] + bigs;
        return region, grew, false, node;
      }
      WriteNode(bb.value, order, 0);
      Give(bb.value, NODE_BYTES, {node});
      assert {node} - {node} == {};
      return None, grew, false, node;
    }

    /** Frees what `Kmalloc` returned; the pages of a big block go back to the page allocator. */
    method Kfree(block: nat) returns (freed: Option<Big>)
      requires Valid()
      requires block == 0 || IsSmall(used, block) || IsBig(bigs, block)
      modifies this, slob
      ensures Valid() && tag.Keys == old(tag.Keys)
      ensures block == 0 ==> freed.None? && used == old(used) && bigs == old(bigs)
      ensures block > 0 && IsBig(old(bigs), block) ==> freed.Some? && freed.value.pages == block
      ensures block > 0 && !IsBig(old(bigs), block) ==>
                freed.None? && bigs == old(bigs) && used == old(used) - {block - 1}
      ensures IsSmall(old(used), block) && old(used)[block - 1].len > 1 ==> freed.None?
      ensures freed.Some? ==> used == old(used) - {freed.value.node}
      ensures freed.Some? ==>
                exists k: nat ::
                  k < |old(bigs)| && old(bigs)[k] == freed.value && bigs == old(bigs)[..k] + old(bigs)[k + 1..]
    {
      hide ListOk, TagsOk, UsedOk, HeadersOk, BigsOk, Retag;
      if block == 0 {
        return None;
      }
      if block % PAGE_UNITS == 0 {
        var k: nat := 0;
        while k < |bigs|
          invariant k <= |bigs|
          invariant forall i: nat :: i < k ==> bigs[i].pages != block
        {
          if bigs[k].pages == block {
            var bb := bigs[k];
            NotSmall(tag, used, bigs, block, k);
            Delisted(slob.L(), slob.arena, tag, used, bigs, k);
            bigs := bigs[..k] + bigs[k + 1..];
            Give(bb.node, NODE_BYTES, {bb.node});
            assert {bb.node} - {bb.node} == {};
            return Some(bb);
          }
          k := k + 1;
        }
      }
      AlignedBig(tag, used, bigs, block);
      Give(block - 1, 0, {});
      assert {} - {(block - 1) as nat} == {};
      return None;
    }
  }

  lemma Foreigner(l: List, arena: nat, tag: Tags, used: Blocks, bigs: seq<Big>, pending: set<nat>, p: nat, n: nat)
    requires HeapOk(l, arena, tag, used, bigs, pending) && Fresh(l, arena, tag, bigs, p, n)
    ensures Foreign(l, arena, p, n)
  {
    hide Free, Foreign, Fresh, TagsOk;
    FreshForeign(l, arena, tag, bigs, p, n);
  }

  lemma HeaderOf(l: List, used: Blocks, b: nat)
    requires HeadersOk(l, used) && b in used && used[b].small
    ensures b in l.units && l.units[b] == used[b].len
  {
  }

  /** The region found for a new big block is outside the heap and clear of the other big blocks. */
  lemma NewBig(l: List, m: List, arena: nat, tag: Tags, before: Blocks, used: Blocks, bigs: seq<Big>, a: nat,
               grew: bool, page: Option<nat>, p: nat, order: nat)
    requires HeapOk(l, arena, tag, before, bigs, {}) && Allocated(l, m, a, 2, grew, page)
    requires Fresh(l, arena, tag, bigs, p, Extent(order))
    requires grew ==> Disjoint(page.value, PAGE_UNITS, p, Extent(order))
    ensures Outside(ClaimedTags(tag, a, 2, grew, page), p, Extent(order)) && p % PAGE_UNITS == 0
    ensures forall i: nat :: i < |bigs| ==> Disjoint(p, Extent(order), bigs[i].pages, Extent(bigs[i].order))
  {
    hide Allocated, TagsOk, UsedOk, HeadersOk, BigsOk, Extent, Disjoint, ClaimedTags, Outside;
    StillOutside(l, arena, tag, before, bigs, m, a, 2, grew, page, p, Extent(order));
  }

  lemma Listed(l: List, arena: nat, tag: Tags, used: Blocks, bigs: seq<Big>, b: Big)
    requires HeapOk(l, arena, tag, used, bigs, {b.node})
    requires b.pages % PAGE_UNITS == 0 && Outside(tag, b.pages, Extent(b.order))
    requires forall i: nat :: i < |bigs| ==> Disjoint(b.pages, Extent(b.order), bigs[i].pages, Extent(bigs[i].order))
    ensures HeapOk(l, arena, tag, used, [b] + bigs, {})
  {
    hide TagsOk, UsedOk, HeadersOk, BigsOk, Extent, Disjoint, Outside;
    Enlist(tag, used, bigs, b);
  }

  lemma Delisted(l: List, arena: nat, tag: Tags, used: Blocks, bigs: seq<Big>, k: nat)
    requires HeapOk(l, arena, tag, used, bigs, {}) && k < |bigs|
    ensures HeapOk(l, arena, tag, used, bigs[..k] + bigs[k + 1..], {bigs[k].node})
    ensures bigs[k].node in used && used[bigs[k].node] == Block(2, false)
  {
    hide TagsOk, UsedOk, HeadersOk;
    Delist(tag, used, bigs, k);
  }

  lemma NotSmall(tag: Tags, used: Blocks, bigs: seq<Big>, block: nat, k: nat)
    requires UsedOk(tag, used) && BigsOk(tag, used, bigs, {}) && k < |bigs| && bigs[k].pages == block
    ensures IsSmall(used, block) ==> used[block - 1].len <= 1
  {
    hide UsedOk, BigsOk;
    if IsSmall(used, block) && used[block - 1].len > 1 {
      NotBig(tag, used, bigs, {}, block, k);
    }
  }

  lemma AlignedBig(tag: Tags, used: Blocks, bigs: seq<Big>, block: nat)
    requires BigsOk(tag, used, bigs, {})
    ensures block % PAGE_UNITS != 0 ==> forall i: nat :: i < |bigs| ==> bigs[i].pages != block
  {
    forall i: nat | i < |bigs|
      ensures bigs[i].pages % PAGE_UNITS == 0
    {
      assert BigOk(tag, used, bigs[i]);
    }
  }
}
