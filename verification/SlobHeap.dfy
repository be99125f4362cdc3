/**
 `slob_alloc` and `slob_free`: the free list as a value, what freeing and carving do to
 it, and the two routines that walk and relink it.
 */
module SlobHeap {
  import opened FreeList
  import opened Options
  import opened SlobList

  const PAGE_UNITS: nat := 512
  const PAGE_BYTES: nat := 4096
  const UNIT_BYTES: nat := 8

  /** The fewest 8-byte units that hold `size` bytes. */
  function UnitsFor(size: nat): (u: nat)
    ensures size <= 8 * u < size + 8
  {
    (size + UNIT_BYTES - 1) / UNIT_BYTES
  }

  datatype List = List(order: seq<nat>, units: map<nat, nat>, next: map<nat, nat>)

  /** A circular list in address order through the one-unit arena block. */
  ghost predicate Shape(l: List, arena: nat) {
    && Ordered(l.order, l.units)
    && Linked(l.order, l.next)
    && arena in l.order && arena in l.units && l.units[arena] == 1
  }

  ghost predicate ListOk(l: List, arena: nat) {
    Shape(l, arena) && Coalesced(l.order, l.units)
  }

  ghost predicate Free(l: List, c: nat) {
    Covers(l.order, l.units, c)
  }

  /** None of the units of the block is free, and the arena is not next to it. */
  ghost predicate Foreign(l: List, arena: nat, b: nat, n: nat) {
    && n > 0 && b != arena + 1 && b + n != arena
    && (forall c: nat :: In(b, n, c) ==> !Free(l, c))
  }

  /** `m` differs from `l` by the block having become free: nothing else moved, and the sizes of allocated
      blocks stand. */
  ghost predicate Gained(l: List, m: List, b: nat, n: nat) {
    && (forall c: nat :: Free(m, c) <==> Free(l, c) || In(b, n, c))
    && (forall a: nat :: a in l.units && !Free(l, a) && !In(b, n, a) ==> a in m.units && m.units[a] == l.units[a])
  }

  ghost predicate Lost(l: List, m: List, b: nat, n: nat) {
    && (forall c: nat :: Free(m, c) <==> Free(l, c) && !In(b, n, c))
    && (forall c: nat :: In(b, n, c) ==> Free(l, c))
    && (forall a: nat :: a in l.units && !Free(l, a) ==> a in m.units && m.units[a] == l.units[a])
    && b in m.units && m.units[b] == n
  }

  lemma HeadFree(l: List, i: nat)
    requires Ordered(l.order, l.units) && i < |l.order|
    ensures Free(l, l.order[i])
  {
    assert Sized(l.order, l.units, i);
    assert Holds(l.order, l.units, i, l.order[i]);
  }

  // ----- slob_free -----

  function Put(l: List, k: nat, b: nat, n: nat): List
    requires 0 < |l.order| && k <= |l.order| && l.order[Before(k, |l.order|)] in l.next
  {
    var cur := l.order[Before(k, |l.order|)];
    List(InsertAt(l.order, k, b), l.units[b := n], l.next[b := l.next[cur]][cur := b])
  }

  function Join(l: List, i: nat): List
    requires i + 1 < |l.order| && l.order[i] in l.units && l.order[i + 1] in l.units && l.order[i + 1] in l.next
  {
    var a, c := l.order[i], l.order[i + 1];
    List(RemoveAt(l.order, i + 1), l.units[a := l.units[a] + l.units[c]], l.next[a := l.next[c]])
  }

  /** A foreign block fits between its neighbours in the list. */
  lemma Sits(l: List, arena: nat, b: nat, n: nat)
    requires Shape(l, arena) && Foreign(l, arena, b, n)
    ensures b !in l.order
    ensures var k := Position(l.order, b);
            && (forall i: nat :: i < k ==> Clear(InsertAt(l.order, k, b), l.units, i, k))
            && (forall i: nat :: k <= i < |l.order| ==> b + n <= l.order[i])
  {
    hide Ordered, Covers, Linked;
    var k, order := Position(l.order, b), l.order;
    assert In(b, n, b);
    if b in order {
      var i :| 0 <= i < |order| && order[i] == b;
      HeadFree(l, i);
    }
    forall i: nat | i < k
      ensures Clear(InsertAt(order, k, b), l.units, i, k)
    {
      if i < k - 1 {
        Less(order, l.units, i, k - 1);
      }
      SizedAt(l, i);
      if order[i] + l.units[order[i]] > b {
        Held(l, i, b);
      }
    }
    forall i: nat | k <= i < |order|
      ensures b + n <= order[i]
    {
      if k < i {
        Less(order, l.units, k, i);
      }
      HeadFree(l, i);
      assert !In(b, n, order[i]);
    }
  }

  lemma SizedAt(l: List, i: nat)
    requires Ordered(l.order, l.units) && i < |l.order|
    ensures l.order[i] in l.units && l.units[l.order[i]] > 0
  {
    assert Sized(l.order, l.units, i);
  }

  lemma LinkedAt(l: List, i: nat)
    requires Linked(l.order, l.next) && i < |l.order|
    ensures l.order[i] in l.next && l.next[l.order[i]] == l.order[After(i, |l.order|)]
  {
    assert LinkAt(l.order, l.next, i);
  }

  lemma Held(l: List, i: nat, c: nat)
    requires Holds(l.order, l.units, i, c)
    ensures Free(l, c)
  {
  }

  lemma InInsert(order: seq<nat>, k: nat, b: nat, a: nat)
    requires k <= |order| && a in order
    ensures a in InsertAt(order, k, b)
  {
    var i :| 0 <= i < |order| && order[i] == a;
    assert InsertAt(order, k, b)[if i < k then i else i + 1] == a;
  }

  lemma InRemove(order: seq<nat>, k: nat, a: nat)
    requires k < |order| && a in order && a != order[k]
    ensures a in RemoveAt(order, k)
  {
    var i :| 0 <= i < |order| && order[i] == a;
    assert RemoveAt(order, k)[if i < k then i else i - 1] == a;
  }

  /** Coalesced, except that block `k` may touch either neighbour. */
  ghost predicate CoalescedBut(order: seq<nat>, units: map<nat, nat>, k: nat) {
    forall i: nat :: i < |order| ==> i == k || i + 1 == k || Apart(order, units, i)
  }

  lemma PutKeeps(l: List, arena: nat, b: nat, n: nat)
    requires ListOk(l, arena) && Foreign(l, arena, b, n)
    ensures var k := Position(l.order, b);
            && l.order[Before(k, |l.order|)] in l.next
            && Shape(Put(l, k, b, n), arena)
            && Gained(l, Put(l, k, b, n), b, n)
            && CoalescedBut(InsertAt(l.order, k, b), l.units[b := n], k)
  {
    hide Ordered, Linked, Covers, Coalesced;
    var k := Position(l.order, b);
    Sits(l, arena, b, n);
    LinkedInsert(l.order, l.units, l.next, k, b);
    OrderedInsert(l.order, l.units, k, b, n);
    InInsert(l.order, k, b, arena);
    forall c: nat
      ensures Free(Put(l, k, b, n), c) <==> Free(l, c) || In(b, n, c)
    {
      CoversInsert(l.order, l.units, k, b, n, c);
    }
    assert In(b, n, b);
    var o, u := InsertAt(l.order, k, b), l.units[b := n];
    forall i: nat | i < |o|
      ensures i == k || i + 1 == k || Apart(o, u, i)
    {
      if i != k && i + 1 != k {
        ApartInsert(l.order, l.units, k, b, n, i);
      }
    }
  }

  lemma JoinKeeps(l: List, arena: nat, i: nat)
    requires Shape(l, arena) && i + 1 < |l.order|
    requires l.order[i] != arena && l.order[i + 1] != arena
    requires l.order[i] in l.units && l.order[i] + l.units[l.order[i]] == l.order[i + 1]
    ensures l.order[i + 1] in l.units && l.order[i + 1] in l.next
    ensures Shape(Join(l, i), arena)
    ensures forall c: nat :: Free(Join(l, i), c) <==> Free(l, c)
    ensures forall j: nat :: j < |l.order| - 1 && Apart(l.order, l.units, if j < i then j else j + 1) ==>
              Apart(Join(l, i).order, Join(l, i).units, j)
  {
    hide Ordered, Linked, Covers, Apart;
    SizedAt(l, i + 1);
    LinkedAt(l, i + 1);
    var m := Join(l, i);
    assert Joined(l.order, l.units, i, m.order, m.units);
    OrderedJoin(l.order, l.units, i, m.order, m.units);
    LinkedRemove(l.order, l.units, l.next, i + 1);
    InRemove(l.order, i + 1, arena);
    forall c: nat
      ensures Free(m, c) <==> Free(l, c)
    {
      CoversJoin(l.order, l.units, i, m.order, m.units, c);
    }
    forall j: nat | j < |l.order| - 1 && Apart(l.order, l.units, if j < i then j else j + 1)
      ensures Apart(m.order, m.units, j)
    {
      ApartJoin(l.order, l.units, i, m.order, m.units, j);
    }
  }

  predicate Touch(l: List, i: nat) {
    i + 1 < |l.order| && l.order[i] in l.units && l.order[i] + l.units[l.order[i]] == l.order[i + 1]
  }

  /** Block `i` swallows its right neighbour when the two touch. */
  function Merge(l: List, i: nat): List {
    if Touch(l, i) && l.order[i + 1] in l.units && l.order[i + 1] in l.next then Join(l, i) else l
  }

  lemma MergeKeeps(l: List, arena: nat, i: nat)
    requires Shape(l, arena) && (Touch(l, i) ==> l.order[i] != arena && l.order[i + 1] != arena)
    ensures Shape(Merge(l, i), arena)
    ensures forall c: nat :: Free(Merge(l, i), c) <==> Free(l, c)
    ensures forall a: nat :: a in l.units && !Free(l, a) ==>
              a in Merge(l, i).units && Merge(l, i).units[a] == l.units[a]
  {
    hide Ordered, Linked, Covers;
    if Touch(l, i) {
      JoinKeeps(l, arena, i);
      HeadFree(l, i);
    }
  }

  /** Coalesced, except perhaps at the right edge of block `k - 1`. */
  ghost predicate CoalescedButLeft(l: List, k: nat) {
    forall i: nat :: i < |l.order| ==> i + 1 == k || Apart(l.order, l.units, i)
  }

  lemma MergeRightApart(l: List, arena: nat, k: nat)
    requires Shape(l, arena) && (Touch(l, k) ==> l.order[k] != arena && l.order[k + 1] != arena)
    requires CoalescedBut(l.order, l.units, k)
    ensures CoalescedButLeft(Merge(l, k), k)
  {
    hide Ordered, Linked, Covers;
    var m := Merge(l, k);
    if Touch(l, k) {
      hide Apart;
      JoinKeeps(l, arena, k);
      forall j: nat | j < |m.order|
        ensures j + 1 == k || Apart(m.order, m.units, j)
      {
      }
    } else if k < |l.order| {
      ShapeSized(l, arena, k);
      assert Apart(l.order, l.units, k);
    }
  }

  lemma ShapeSized(l: List, arena: nat, i: nat)
    requires Shape(l, arena) && i < |l.order|
    ensures l.order[i] in l.units
  {
    SizedAt(l, i);
  }

  lemma MergeLeftApart(l: List, arena: nat, k: nat)
    requires Shape(l, arena) && k > 0 && (Touch(l, k - 1) ==> l.order[k - 1] != arena && l.order[k] != arena)
    requires CoalescedButLeft(l, k)
    ensures Coalesced(Merge(l, k - 1).order, Merge(l, k - 1).units)
  {
    hide Ordered, Linked, Covers;
    var m := Merge(l, k - 1);
    if Touch(l, k - 1) {
      hide Apart;
      JoinKeeps(l, arena, k - 1);
      forall j: nat | j < |m.order|
        ensures Apart(m.order, m.units, j)
      {
      }
    } else if k - 1 < |l.order| {
      ShapeSized(l, arena, k - 1);
      assert Apart(l.order, l.units, k - 1);
    }
  }

  /** The list once the block sits at its place and is joined to what it touches. */
  function Released(l: List, b: nat, n: nat): List
    requires 0 < |l.order| && l.order[Before(Position(l.order, b), |l.order|)] in l.next
  {
    var k := Position(l.order, b);
    var m := Merge(Put(l, k, b, n), k);
    if k > 0 then Merge(m, k - 1) else m
  }

  /** The block in its place and joined to the right. */
  function Placed(l: List, b: nat, n: nat): List
    requires 0 < |l.order| && l.order[Before(Position(l.order, b), |l.order|)] in l.next
  {
    Merge(Put(l, Position(l.order, b), b, n), Position(l.order, b))
  }

  lemma PlacedOk(l: List, arena: nat, b: nat, n: nat)
    requires ListOk(l, arena) && Foreign(l, arena, b, n)
    ensures l.order[Before(Position(l.order, b), |l.order|)] in l.next
    ensures Shape(Placed(l, b, n), arena)
    ensures Gained(l, Placed(l, b, n), b, n)
    ensures CoalescedButLeft(Placed(l, b, n), Position(l.order, b))
  {
    hide Ordered, Linked, Covers, Coalesced, Apart, CoalescedBut, CoalescedButLeft;
    var k := Position(l.order, b);
    PutKeeps(l, arena, b, n);
    var p := Put(l, k, b, n);
    assert (Touch(p, k) ==> p.order[k] != arena && p.order[k + 1] != arena) && p.order == InsertAt(l.order, k, b)
           && p.units == l.units[b := n] by {
      Sits(l, arena, b, n);
      assert p.order[k] == b && p.units[b] == n;
    }
    hide Put, Merge, Touch, Shape, InsertAt;
    MergeKeeps(p, arena, k);
    MergeRightApart(p, arena, k);
  }

  lemma PlacedAt(l: List, arena: nat, b: nat, n: nat)
    requires ListOk(l, arena) && Foreign(l, arena, b, n)
    ensures var k := Position(l.order, b);
            && l.order[Before(k, |l.order|)] in l.next && l.order[Before(k, |l.order|)] in l.units
            && var m := Placed(l, b, n);
            && b !in l.order
            && k < |m.order| && m.order[k] == b
            && (k > 0 ==>
                 m.order[k - 1] == l.order[k - 1] && l.order[k - 1] in m.units
                 && m.units[l.order[k - 1]] == l.units[l.order[k - 1]])
  {
    hide Ordered, Linked, Covers, Coalesced, Apart;
    var k := Position(l.order, b);
    Sits(l, arena, b, n);
    SizedAt(l, Before(k, |l.order|));
    LinkedAt(l, Before(k, |l.order|));
    var p := Put(l, k, b, n);
    assert p.order[k] == b && p.units[b] == n;
  }

  lemma ReleasedOk(l: List, arena: nat, b: nat, n: nat)
    requires ListOk(l, arena) && Foreign(l, arena, b, n)
    ensures l.order[Before(Position(l.order, b), |l.order|)] in l.next
    ensures ListOk(Released(l, b, n), arena)
    ensures Gained(l, Released(l, b, n), b, n)
  {
    hide Ordered, Linked, Covers, Coalesced, Apart, CoalescedButLeft, Put;
    var k := Position(l.order, b);
    PlacedOk(l, arena, b, n);
    PlacedAt(l, arena, b, n);
    var m := Placed(l, b, n);
    if k > 0 {
      assert l.order[k - 1] == arena ==> l.units[l.order[k - 1]] == 1;
      MergeKeeps(m, arena, k - 1);
      MergeLeftApart(m, arena, k);
    } else {
      ButLeftAtZero(m);
    }
  }

  lemma ButLeftAtZero(l: List)
    requires CoalescedButLeft(l, 0)
    ensures Coalesced(l.order, l.units)
  {
  }

  /** The links around the place of the block. */
  lemma Neighbours(l: List, arena: nat, b: nat, n: nat)
    requires ListOk(l, arena) && Foreign(l, arena, b, n)
    ensures var k, p := Position(l.order, b), Before(Position(l.order, b), |l.order|);
            && l.order[p] in l.next && l.order[p] in l.units && l.order[p] != b
            && var cur, nxt := l.order[p], l.next[l.order[p]];
            && nxt in l.order && nxt in l.units && nxt in l.next && nxt != b
            && (k < |l.order| ==> nxt == l.order[k])
            && (k == |l.order| ==> nxt < b)
            && (k == 0 ==> b < cur)
            && (b + n == nxt ==> nxt != cur)
  {
    hide Ordered, Linked, Covers, Coalesced;
    var k, p := Position(l.order, b), Before(Position(l.order, b), |l.order|);
    Sits(l, arena, b, n);
    LinkedAt(l, p);
    SizedAt(l, p);
    LinkedAt(l, After(p, |l.order|));
    SizedAt(l, After(p, |l.order|));
    if 0 < |l.order| - 1 {
      Less(l.order, l.units, 0, |l.order| - 1);
    }
    if p != After(p, |l.order|) {
      Differ(l.order, l.units, p, After(p, |l.order|));
    }
  }

  /** The assignments of `slob_free` that join on the right. */
  lemma PlacedWords(l: List, arena: nat, b: nat, n: nat)
    requires ListOk(l, arena) && Foreign(l, arena, b, n)
    ensures var p := Before(Position(l.order, b), |l.order|);
            && l.order[p] in l.next
            && var cur, nxt := l.order[p], l.next[l.order[p]];
            && nxt in l.units && nxt in l.next
            && Placed(l, b, n).units == l.units[b := if b + n == nxt then n + l.units[nxt] else n]
            && Placed(l, b, n).next == l.next[b := if b + n == nxt then l.next[nxt] else nxt][cur := b]
  {
    hide ListOk, Foreign, Position;
    Neighbours(l, arena, b, n);
    var k := Position(l.order, b);
    var m := Put(l, k, b, n);
    var cur := l.order[Before(k, |l.order|)];
    var nxt := l.next[cur];
    PutAt(l, k, b, n);
    hide Put;
    if b + n == nxt {
      assert Touch(m, k) && m.order[k + 1] == nxt;
      assert Merge(m, k) == Join(m, k);
      assert m.next[b := l.next[nxt]] == l.next[b := l.next[nxt]][cur := b];
    } else {
      assert !Touch(m, k);
    }
  }

  lemma PutAt(l: List, k: nat, b: nat, n: nat)
    requires 0 < |l.order| && k <= |l.order| && l.order[Before(k, |l.order|)] in l.next
    ensures var m, cur := Put(l, k, b, n), l.order[Before(k, |l.order|)];
            && |m.order| == |l.order| + 1 && m.order[k] == b && (k < |l.order| ==> m.order[k + 1] == l.order[k])
            && m.units == l.units[b := n] && m.next == l.next[b := l.next[cur]][cur := b]
  {
  }

  /** The assignments of `slob_free` that join on the left. */
  lemma ReleasedWords(l: List, arena: nat, b: nat, n: nat)
    requires ListOk(l, arena) && Foreign(l, arena, b, n)
    ensures var p := Before(Position(l.order, b), |l.order|);
            && l.order[p] in l.next && l.order[p] in l.units && l.order[p] != b && b !in l.order
            && var cur, m, r := l.order[p], Placed(l, b, n), Released(l, b, n);
            && cur in m.units && b in m.units && b in m.next && m.units[cur] == l.units[cur]
            && if cur + m.units[cur] == b then r.units == m.units[cur := m.units[cur] + m.units[b]]
               && r.next == m.next[cur := m.next[b]]
               else r.units == m.units && r.next == m.next
  {
    hide ListOk, Foreign, Put;
    Neighbours(l, arena, b, n);
    PlacedWords(l, arena, b, n);
    PlacedAt(l, arena, b, n);
  }

  /** The block found by the search stays in the list. */
  lemma ReleasedCur(l: List, arena: nat, b: nat, n: nat)
    requires ListOk(l, arena) && Foreign(l, arena, b, n)
    ensures var p := Before(Position(l.order, b), |l.order|);
            l.order[p] in l.next && l.order[p] in Released(l, b, n).order
  {
    hide ListOk, Foreign;
    Neighbours(l, arena, b, n);
    PlacedAt(l, arena, b, n);
    var k := Position(l.order, b);
    var m := Placed(l, b, n);
    if k > 0 {
      assert Released(l, b, n).order[k - 1] == l.order[k - 1];
    } else {
      var p := Put(l, k, b, n);
      assert p.order[0] == b && p.order[|l.order|] == l.order[|l.order| - 1] && p.order[1] == l.order[0];
      assert m.order[|m.order| - 1] == l.order[|l.order| - 1];
    }
  }

  // ----- slob_alloc -----

  /** Block `j` without its first `u` units, or gone when it has no more. */
  function Carved(l: List, j: nat, u: nat): List
    requires j < |l.order| && l.order[j] in l.units && l.order[j] in l.next && l.units[l.order[j]] >= u
  {
    var prev, cur := l.order[Before(j, |l.order|)], l.order[j];
    if l.units[cur] == u then List(RemoveAt(l.order, j), l.units, l.next[prev := l.next[cur]])
    else List(l.order[j := cur + u], l.units[cur + u := l.units[cur] - u][cur := u],
          l.next[prev := cur + u][cur + u := l.next[cur]])
  }

  lemma CarvedCut(l: List, j: nat, u: nat)
    requires Ordered(l.order, l.units) && j < |l.order| && l.order[j] in l.units && l.order[j] in l.next
    requires 0 < u <= l.units[l.order[j]]
    ensures Cut(l.order, l.units, j, u, Carved(l, j, u).order, Carved(l, j, u).units)
  {
    hide Ordered;
    var v := Carved(l, j, u).units;
    forall i: nat | i < |l.order| && i != j
      ensures SameSize(l.order, l.units, v, i)
    {
      Beside(l.order, l.units, j, i);
    }
  }

  lemma CarvedLinked(l: List, j: nat, u: nat)
    requires Ordered(l.order, l.units) && Linked(l.order, l.next) && j < |l.order| && |l.order| > 1
             && l.order[j] in l.units && l.order[j] in l.next
    requires 0 < u <= l.units[l.order[j]]
    ensures Linked(Carved(l, j, u).order, Carved(l, j, u).next)
  {
    hide Ordered;
    var m, cur, n := Carved(l, j, u), l.order[j], |l.order|;
    if l.units[cur] == u {
      LinkedRemove(l.order, l.units, l.next, j);
    } else {
      var p := Before(j, n);
      LinkedAt(l, j);
      Beside(l.order, l.units, j, p);
      forall i: nat | i < n
        ensures LinkAt(m.order, m.next, i)
      {
        LinkedAt(l, i);
        if i != j {
          Beside(l.order, l.units, j, i);
          if i != p {
            Differ(l.order, l.units, i, p);
          }
        }
      }
    }
  }

  lemma CarvedOk(l: List, arena: nat, j: nat, u: nat)
    requires ListOk(l, arena) && j < |l.order| && l.order[j] in l.units && l.order[j] in l.next
    requires 0 < u <= l.units[l.order[j]] && l.order[j] != arena
    ensures ListOk(Carved(l, j, u), arena)
    ensures Lost(l, Carved(l, j, u), l.order[j], u)
    ensures l.order[Before(j, |l.order|)] in Carved(l, j, u).order && l.order[Before(j, |l.order|)] != l.order[j]
  {
    hide Ordered, Linked, Covers, Coalesced, Apart;
    var m, n := Carved(l, j, u), |l.order|;
    var cur: nat := l.order[j];
    var i :| 0 <= i < n && l.order[i] == arena;
    assert i != j;
    CarvedCut(l, j, u);
    CutOrdered(l.order, l.units, j, u, m.order, m.units);
    CutApart(l.order, l.units, j, u, m.order, m.units);
    CarvedLinked(l, j, u);
    CarvedKeepsOther(l, j, u, i);
    CarvedKeepsOther(l, j, u, Before(j, n));
    Differ(l.order, l.units, Before(j, n), j);
    forall c: nat
      ensures Free(m, c) <==> Free(l, c) && !In(cur, u, c)
    {
      CutCovers(l.order, l.units, j, u, m.order, m.units, c);
    }
    forall c: nat | In(cur, l.units[cur], c)
      ensures Free(l, c)
    {
      Held(l, j, c);
    }
    var size: nat := l.units[cur];
    assert In(cur, size, cur) && (size == u || In(cur, size, cur + u));
    assert forall c: nat :: In(cur, u, c) ==> In(cur, size, c);
  }

  lemma CarvedKeepsOther(l: List, j: nat, u: nat, i: nat)
    requires Ordered(l.order, l.units) && j < |l.order| && l.order[j] in l.units && l.order[j] in l.next
             && i < |l.order| && i != j
    requires 0 < u <= l.units[l.order[j]]
    ensures l.order[i] in Carved(l, j, u).order
    ensures l.order[i] in l.units && l.order[i] in Carved(l, j, u).units
            && Carved(l, j, u).units[l.order[i]] == l.units[l.order[i]]
  {
    hide Ordered;
    Beside(l.order, l.units, j, i);
    var m := Carved(l, j, u);
    assert m.order[if |m.order| < |l.order| && i > j then i - 1 else i] == l.order[i];
  }
}
