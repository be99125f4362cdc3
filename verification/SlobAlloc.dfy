/** The two routines that walk and relink the free list in place. */
module SlobAllocator {
  import opened FreeList
  import opened Options
  import opened SlobList
  import opened SlobHeap

  predicate Short(l: List, u: nat, i: nat) {
    i < |l.order| && l.order[i] in l.units && l.units[l.order[i]] < u
  }

  ghost predicate NothingFits(l: List, u: nat) {
    forall i: nat :: i < |l.order| ==> Short(l, u, i)
  }

  /** Index `j` was passed on the way round from `s` to `i`. */
  predicate Passed(s: nat, i: nat, j: nat) {
    if i >= s then s < j <= i else j > s || j <= i
  }

  /** Free units that follow each other are in one block: nothing is left uncoalesced. */
  lemma {:induction false} RunInOne(l: List, i: nat, c: nat, n: nat)
    requires Ordered(l.order, l.units) && Coalesced(l.order, l.units) && n > 0
    requires Holds(l.order, l.units, i, c)
    requires forall d: nat :: In(c, n, d) ==> Free(l, d)
    ensures Holds(l.order, l.units, i, c + n - 1)
  {
    if n > 1 {
      RunInOne(l, i, c, n - 1);
      StepInOne(l, i, c + n - 2);
    }
  }

  lemma StepInOne(l: List, i: nat, c: nat)
    requires Ordered(l.order, l.units) && Coalesced(l.order, l.units)
    requires Holds(l.order, l.units, i, c) && Free(l, c + 1)
    ensures Holds(l.order, l.units, i, c + 1)
  {
    var j: nat :| Holds(l.order, l.units, j, c + 1);
    assert j < i ==> Clear(l.order, l.units, j, i);
    assert i < j ==> Apart(l.order, l.units, i) && Clear(l.order, l.units, i, j);
    assert i + 1 < j ==>
             Sized(l.order, l.units, i + 1) && Clear(l.order, l.units, i, i + 1) && Clear(l.order, l.units, i + 1, j);
  }

  /** Once a whole page is free, every request below a page fits somewhere. */
  lemma PageFits(l: List, p: nat, u: nat)
    requires Ordered(l.order, l.units) && Coalesced(l.order, l.units) && u <= PAGE_UNITS
    requires forall c: nat :: In(p, PAGE_UNITS, c) ==> Free(l, c)
    ensures !NothingFits(l, u)
  {
    hide Ordered, Coalesced;
    assert In(p, PAGE_UNITS, p);
    var i: nat :| Holds(l.order, l.units, i, p);
    RunInOne(l, i, p, PAGE_UNITS);
    assert !Short(l, u, i);
  }

  /** What `slob_alloc` does to the list when it returns block `a`. */
  ghost predicate Allocated(l: List, m: List, a: nat, u: nat, grew: bool, page: Option<nat>) {
    && (grew ==> page.Some?)
    && (forall c: nat :: In(a, u, c) ==> Free(l, c) || (grew && In(page.value, PAGE_UNITS, c)))
    && (forall c: nat :: Free(m, c) <==> (Free(l, c) || (grew && In(page.value, PAGE_UNITS, c))) && !In(a, u, c))
    && (forall c: nat :: c in l.units && !Free(l, c) && !(grew && In(page.value, PAGE_UNITS, c)) ==>
         c in m.units && m.units[c] == l.units[c])
    && a in m.units && m.units[a] == u
  }

  class Slob {
    const arena: nat
    var units: map<nat, nat>
    var next: map<nat, nat>
    var slobfree: nat
    ghost var order: seq<nat>

    ghost function L(): List
      reads this
    {
      List(order, units, next)
    }

    ghost predicate Valid()
      reads this
    {
      ListOk(L(), arena) && slobfree in order
    }

    /** The statically initialised heap: the arena linked to itself. */
    constructor (at: nat)
      ensures Valid() && arena == at && L() == List([at], map[at := 1], map[at := at])
    {
      arena, units, next, slobfree := at, map[at := 1], map[at := at], at;
      order := [at];
      new;
      assert Sized(order, units, 0) && LinkAt(order, next, 0);
    }

    /** The search of `slob_free`: it ends whatever block it starts at. */
    method Place(b: nat) returns (cur: nat)
      requires Valid() && b !in order
      ensures cur == order[Before(Position(order, b), |order|)]
    {
      hide ListOk, Linked, Position;
      ghost var p := Before(Position(order, b), |order|);
      ghost var i: nat :| i < |order| && order[i] == slobfree;
      cur := slobfree;
      NextOf(L(), arena, b, i);
      while !(b > cur && b < next[cur])
        invariant i < |order| && order[i] == cur && cur in next && next[cur] == order[After(i, |order|)]
        invariant Fits(b, cur, next[cur]) <==> i == p
        decreases if i <= p then p - i else |order| - i + p
      {
        if cur >= next[cur] && (b > cur || b < next[cur]) {
          break;
        }
        cur := next[cur];
        i := After(i, |order|);
        NextOf(L(), arena, b, i);
      }
    }

    /** The assignments at the end of `slob_free`. */
    method Relink(b: nat, cur: nat)
      requires b in units && cur in units && cur in next && cur != b && next[cur] in units && next[cur] in next
               && next[cur] != b
      modifies this`units, this`next
      ensures var n, nxt := old(units[b]), old(next[cur]);
              && var u := old(units)[b := if b + n == nxt then n + old(units)[nxt] else n];
              && var x := old(next)[b := if b + n == nxt then old(next)[nxt] else nxt];
              && units == (if cur + u[cur] == b then u[cur := u[cur] + u[b]] else u)
              && next == (if cur + u[cur] == b then x[cur := x[b]] else x[cur := b])
    {
      if b + units[b] == next[cur] {
        units, next := units[b := units[b] + units[next[cur]]], next[b := next[next[cur]]];
      } else {
        next := next[b := next[cur]];
        assert units == units[b := units[b]];
      }
      if cur + units[cur] == b {
        units, next := units[cur := units[cur] + units[b]], next[cur := next[b]];
      } else {
        next := next[cur := b];
      }
    }

    /** Gives the block back, joined to what it touches. */
    method SlobFree(b: nat, size: nat)
      requires Valid() && (size == 0 ==> b in units)
      requires Foreign(L(), arena, b, if size == 0 then units[b] else UnitsFor(size))
      modifies this
      ensures Valid()
      ensures Gained(old(L()), L(), b, if size == 0 then old(units[b]) else UnitsFor(size))
    {
      hide ListOk, Foreign, Released, Linked, Gained, Position, Before;
      ghost var l := L();
      ghost var n := if size == 0 then units[b] else UnitsFor(size);
      ReleasedOk(l, arena, b, n);
      Relinked(l, arena, b, n);
      var cur := Place(b);
      if size != 0 {
        units := units[b := UnitsFor(size)];
      }
      assert units == l.units[b := n];
      Relink(b, cur);
      slobfree := cur;
      order := Released(l, b, n).order;
      assert L() == Released(l, b, n);
    }

    /** One round of the search of `slob_alloc`, from `slobfree` on: the first block that fits, with the block
        before it. */
    method Scan(u: nat) returns (found: bool, prev: nat, cur: nat, ghost s: nat, ghost i: nat)
      requires Valid()
      ensures s < |order| && order[s] == slobfree && i < |order|
      ensures order[i] == prev && order[After(i, |order|)] == cur
      ensures forall j: nat :: j < |order| && Passed(s, i, j) ==> Short(L(), u, j)
      ensures if found then !Short(L(), u, After(i, |order|)) else NothingFits(L(), u)
    {
      hide ListOk, Linked, Short;
      prev := slobfree;
      s :| s < |order| && order[s] == slobfree;
      i := s;
      StepOf(L(), arena, i);
      cur := next[prev];
      while true
        invariant i < |order| && order[i] == prev && order[After(i, |order|)] == cur
        invariant forall j: nat :: j < |order| && Passed(s, i, j) ==> Short(L(), u, j)
        decreases if i >= s then |order| - i + s else s - i
      {
        StepOf(L(), arena, After(i, |order|));
        if units[cur] >= u {
          NotShort(L(), u, After(i, |order|));
          return true, prev, cur, s, i;
        }
        IsShort(L(), u, After(i, |order|));
        if cur == slobfree {
          Round(L(), arena, u, s, i);
          return false, prev, cur, s, i;
        }
        prev := cur;
        i := After(i, |order|);
        cur := next[cur];
      }
    }

    /** Cuts `u` units off the front of block `cur`, which follows `prev`. */
    method Carve(prev: nat, cur: nat, u: nat, ghost j: nat)
      requires Valid() && j < |order| && order[j] == cur && order[Before(j, |order|)] == prev
      requires cur in units && cur in next && 0 < u <= units[cur] && cur != arena
      modifies this
      ensures Valid() && Lost(old(L()), L(), cur, u) && slobfree == prev
    {
      hide ListOk, Lost, Ordered, Linked;
      ghost var l := L();
      CarvedOk(l, arena, j, u);
      if units[cur] == u {
        next := next[prev := next[cur]];
      } else {
        next := next[prev := cur + u];
        units := units[cur + u := units[cur] - u];
        next := next[cur + u := next[cur]];
        units := units[cur := u];
      }
      slobfree := prev;
      order := Carved(l, j, u).order;
      assert L() == Carved(l, j, u);
    }

    /**
     Takes a block of `UnitsFor(size)` units, growing the heap by one page when nothing fits.  A request
     for one unit is given the arena itself exactly when the search starts there, and one for none is given
     the first block, whose size is lost; only then is the list not left in order.  The assertion on the size
     fails for the requests next to a page.
     */
    method SlobAlloc(size: nat, page: Option<nat>) returns (r: Option<nat>, grew: bool, panicked: bool)
      requires Valid()
      requires page.Some? ==> Foreign(L(), arena, page.value, PAGE_UNITS)
      modifies this
      ensures panicked <==> size >= PAGE_BYTES - UNIT_BYTES
      ensures panicked ==> r.None? && Valid() && L() == old(L()) && !grew
      ensures !panicked ==> (r.None? <==> page.None? && NothingFits(old(L()), UnitsFor(size)))
      ensures r.None? ==> Valid() && L() == old(L()) && !grew
      ensures r.Some? ==> (grew <==> NothingFits(old(L()), UnitsFor(size)))
      ensures size == 0 ==> r == Some(FirstTried(old(L()), old(slobfree))) && slobfree == old(slobfree)
                            && L() == old(L()).(units := old(units)[r.value := 0])
      ensures size > 0 ==>
                (r == Some(arena) <==> UnitsFor(size) == 1 && FirstTried(old(L()), old(slobfree)) == arena)
      ensures size > 0 && r == Some(arena) ==>
                arena in old(next) && slobfree == old(slobfree)
                    && L() == old(L()).(next := old(next)[slobfree := old(next)[arena]])
      ensures size > 0 && r.Some? && r.value != arena ==>
                Valid() && Allocated(old(L()), L(), r.value, UnitsFor(size), grew, page)
    {
      hide ListOk, Foreign, Gained, Lost, NothingFits, Allocated, Linked, Ordered, Short, FirstTried;
      grew, panicked := false, false;
      if size + UNIT_BYTES >= PAGE_BYTES {
        return None, false, true;
      }
      var u := UnitsFor(size);
      ghost var mid := L();
      while true
        invariant Valid() && L() == mid && (!grew ==> slobfree == old(slobfree))
        invariant if grew then page.Some? && Gained(old(L()), mid, page.value, PAGE_UNITS)
                  && NothingFits(old(L()), u) else mid == old(L())
        decreases if grew then 0 else 1
      {
        var found, prev, cur, s, i := Scan(u);
        FewUnits(mid, arena, slobfree, u, s, i, found);
        if found {
          ghost var j := After(i, |order|);
          StepOf(mid, arena, j);
          FitsHere(mid, u, j);
          ArenaSmall(mid, arena, u, j);
          if !grew {
            FitsSome(mid, u, j);
          } else if u <= 1 {
            OneAlwaysFits(old(L()), arena);
          }
          if u == 0 {
            SplitNothing(prev, cur);
            return Some(cur), grew, false;
          }
          if cur == arena {
            TakeArena(prev);
            return Some(cur), grew, false;
          }
          Carve(prev, cur, u, j);
          Taken(old(L()), mid, L(), cur, u, grew, page);
          return Some(cur), grew, false;
        }
        if page.None? {
          return None, grew, false;
        }
        if grew {
          GrownFits(old(L()), mid, arena, page.value, u);
        }
        assert !grew;
        SlobFree(page.value, PAGE_BYTES);
        grew := true;
        mid := L();
      }
    }

    /** The remainder of a split at no units is the block itself, and then gets the size of what was cut off. */
    method SplitNothing(prev: nat, cur: nat)
      requires cur in units && cur in next && prev in next && next[prev] == cur
      modifies this`units, this`next, this`slobfree
      ensures units == old(units)[cur := 0] && next == old(next) && slobfree == prev
    {
      var rest := cur + 0;
      next := next[prev := rest];
      units := units[rest := units[cur] - 0];
      next := next[rest := next[cur]];
      units := units[cur := 0];
      slobfree := prev;
      assert next == old(next);
    }

    /** The exact fit of one unit unlinks the arena; with nothing else free it stays linked to itself. */
    method TakeArena(prev: nat)
      requires arena in next
      modifies this`next, this`slobfree
      ensures next == old(next)[prev := old(next)[arena]] && slobfree == prev
    {
      next := next[prev := next[arena]];
      slobfree := prev;
    }
  }

  /** The block the search looks at first. */
  ghost function FirstTried(l: List, slobfree: nat): nat {
    if slobfree in l.next then l.next[slobfree] else 0
  }

  lemma FewUnits(l: List, arena: nat, slobfree: nat, u: nat, s: nat, i: nat, found: bool)
    requires ListOk(l, arena) && s < |l.order| && l.order[s] == slobfree && i < |l.order|
    requires forall j: nat :: j < |l.order| && Passed(s, i, j) ==> Short(l, u, j)
    ensures u <= 1 ==> l.order[i] == slobfree && l.order[After(i, |l.order|)] == FirstTried(l, slobfree)
    ensures u <= 1 ==> slobfree in l.next && l.next[slobfree] == FirstTried(l, slobfree)
    ensures u <= 1 && !found ==> !NothingFits(l, u)
  {
    hide Ordered, Linked;
    StepOf(l, arena, s);
    if u <= 1 {
      forall j: nat | j < |l.order|
        ensures !Short(l, u, j)
      {
        SizedAt(l, j);
      }
      assert Passed(s, i, i) || i == s;
      assert !Short(l, u, 0);
    }
  }

  lemma ArenaSmall(l: List, arena: nat, u: nat, j: nat)
    requires ListOk(l, arena) && j < |l.order| && l.order[j] in l.units && l.units[l.order[j]] >= u
    ensures l.order[j] == arena ==> u <= 1 && arena in l.next
  {
    hide Ordered, Linked;
    StepOf(l, arena, j);
  }

  lemma OneAlwaysFits(l: List, arena: nat)
    requires ListOk(l, arena)
    ensures !NothingFits(l, 1) && !NothingFits(l, 0)
  {
    hide Ordered, Linked;
    SizedAt(l, 0);
    assert !Short(l, 1, 0) && !Short(l, 0, 0);
  }

  /** What the assignments of `slob_free` compute, once its search has found `cur`. */
  lemma Relinked(l: List, arena: nat, b: nat, n: nat)
    requires ListOk(l, arena) && Foreign(l, arena, b, n)
    ensures b !in l.order
    ensures var cur := l.order[Before(Position(l.order, b), |l.order|)];
            && cur in l.next && cur in l.units && cur != b
            && l.next[cur] in l.units && l.next[cur] in l.next && l.next[cur] != b
            && var m := Released(l, b, n);
            && cur in m.order
            && var u := l.units[b := if b + n == l.next[cur] then n + l.units[l.next[cur]] else n];
            && var x := l.next[b := if b + n == l.next[cur] then l.next[l.next[cur]] else l.next[cur]];
            && m.units == (if cur + u[cur] == b then u[cur := u[cur] + u[b]] else u)
            && m.next == (if cur + u[cur] == b then x[cur := x[b]] else x[cur := b])
  {
    hide ListOk, Foreign, Placed, Released, Position;
    Neighbours(l, arena, b, n);
    PlacedWords(l, arena, b, n);
    ReleasedWords(l, arena, b, n);
    ReleasedCur(l, arena, b, n);
  }

  lemma NextOf(l: List, arena: nat, b: nat, i: nat)
    requires ListOk(l, arena) && i < |l.order| && b !in l.order
    ensures l.order[i] in l.next && l.next[l.order[i]] == l.order[After(i, |l.order|)]
    ensures Fits(b, l.order[i], l.next[l.order[i]]) <==> i == Before(Position(l.order, b), |l.order|)
  {
    hide Ordered, Linked;
    LinkedAt(l, i);
    FitsAt(l.order, l.units, l.next, b, i);
  }

  lemma StepOf(l: List, arena: nat, i: nat)
    requires ListOk(l, arena) && i < |l.order|
    ensures l.order[i] in l.next && l.next[l.order[i]] == l.order[After(i, |l.order|)] && l.order[i] in l.units
  {
    hide Ordered, Linked;
    LinkedAt(l, i);
    SizedAt(l, i);
  }

  lemma NotShort(l: List, u: nat, i: nat)
    requires i < |l.order| && l.order[i] in l.units && l.units[l.order[i]] >= u
    ensures !Short(l, u, i)
  {
  }

  lemma IsShort(l: List, u: nat, i: nat)
    requires i < |l.order| && l.order[i] in l.units && l.units[l.order[i]] < u
    ensures Short(l, u, i)
  {
  }

  lemma FitsHere(l: List, u: nat, i: nat)
    requires i < |l.order| && l.order[i] in l.units && !Short(l, u, i)
    ensures l.units[l.order[i]] >= u
  {
  }

  lemma FitsSome(l: List, u: nat, i: nat)
    requires i < |l.order| && !Short(l, u, i)
    ensures !NothingFits(l, u)
  {
  }

  /** Back at the start, every block has been seen. */
  lemma Round(l: List, arena: nat, u: nat, s: nat, i: nat)
    requires ListOk(l, arena) && s < |l.order| && i < |l.order| && l.order[After(i, |l.order|)] == l.order[s]
    requires forall j: nat :: j < |l.order| && Passed(s, i, j) ==> Short(l, u, j)
    requires Short(l, u, After(i, |l.order|))
    ensures NothingFits(l, u)
  {
    hide Ordered, Linked, Short;
    if After(i, |l.order|) != s {
      Differ(l.order, l.units, After(i, |l.order|), s);
    }
    forall j: nat | j < |l.order|
      ensures Short(l, u, j)
    {
      assert j == s || Passed(s, i, j);
    }
  }

  lemma GrownFits(l: List, m: List, arena: nat, p: nat, u: nat)
    requires ListOk(m, arena) && Gained(l, m, p, PAGE_UNITS) && u <= PAGE_UNITS
    ensures !NothingFits(m, u)
  {
    hide Ordered, Coalesced, Free, NothingFits;
    PageFits(m, p, u);
  }

  lemma Taken(l: List, mid: List, m: List, a: nat, u: nat, grew: bool, page: Option<nat>)
    requires Lost(mid, m, a, u)
    requires if grew then page.Some? && Gained(l, mid, page.value, PAGE_UNITS) else mid == l
    ensures Allocated(l, m, a, u, grew, page)
  {
    hide Free;
  }
}
