/**
 Lists of free blocks in address order.  A block is named by its first unit; `units` gives
 its length.  The units are pages for the page allocator and 8 bytes for the SLOB heap.
 */
module FreeList {
  /** Unit `c` lies in the block of `n` units at `b`. */
  predicate In(b: nat, n: nat, c: nat) {
    b <= c < b + n
  }

  predicate Clear(order: seq<nat>, units: map<nat, nat>, i: nat, j: nat)
    requires i < |order| && j < |order|
  {
    order[i] in units && order[i] + units[order[i]] <= order[j]
  }

  predicate Sized(order: seq<nat>, units: map<nat, nat>, i: nat)
    requires i < |order|
  {
    order[i] in units && units[order[i]] > 0
  }

  /** Ascending and disjoint. */
  ghost predicate Ordered(order: seq<nat>, units: map<nat, nat>) {
    && (forall i: nat :: i < |order| ==> Sized(order, units, i))
    && (forall i: nat, j: nat :: i < j < |order| ==> Clear(order, units, i, j))
  }

  /** Block `i` does not touch its right neighbour. */
  predicate Apart(order: seq<nat>, units: map<nat, nat>, i: nat) {
    i + 1 < |order| ==> order[i] in units && order[i] + units[order[i]] != order[i + 1]
  }

  /** Fully coalesced. */
  ghost predicate Coalesced(order: seq<nat>, units: map<nat, nat>) {
    forall i: nat :: i < |order| ==> Apart(order, units, i)
  }

  predicate Holds(order: seq<nat>, units: map<nat, nat>, i: nat, c: nat) {
    i < |order| && order[i] in units && order[i] <= c < order[i] + units[order[i]]
  }

  /** Some block of the list contains unit `c`. */
  ghost predicate Covers(order: seq<nat>, units: map<nat, nat>, c: nat) {
    exists i: nat :: Holds(order, units, i, c)
  }

  lemma Less(order: seq<nat>, units: map<nat, nat>, i: nat, j: nat)
    requires Ordered(order, units) && i < j < |order|
    ensures order[i] < order[j]
  {
    assert Sized(order, units, i) && Clear(order, units, i, j);
  }

  lemma Differ(order: seq<nat>, units: map<nat, nat>, i: nat, j: nat)
    requires Ordered(order, units) && i < |order| && j < |order| && i != j
    ensures order[i] != order[j]
  {
    if i < j {
      Less(order, units, i, j);
    } else {
      Less(order, units, j, i);
    }
  }

  function InsertAt(order: seq<nat>, k: nat, b: nat): seq<nat>
    requires k <= |order|
  {
    order[..k] + [b] + order[k..]
  }

  function RemoveAt(order: seq<nat>, k: nat): seq<nat>
    requires k < |order|
  {
    order[..k] + order[k + 1..]
  }

  // ----- inserting a block -----

  lemma OrderedInsert(order: seq<nat>, units: map<nat, nat>, k: nat, b: nat, n: nat)
    requires Ordered(order, units) && k <= |order| && b !in order && n > 0
    requires forall i: nat :: i < k ==> Clear(InsertAt(order, k, b), units, i, k)
    requires forall i: nat :: k <= i < |order| ==> b + n <= order[i]
    ensures Ordered(InsertAt(order, k, b), units[b := n])
  {
    var o, u := InsertAt(order, k, b), units[b := n];
    forall i: nat | i < |o|
      ensures Sized(o, u, i)
    {
      if i != k {
        assert Sized(order, units, if i < k then i else i - 1);
      }
    }
    forall i: nat, j: nat | i < j < |o|
      ensures Clear(o, u, i, j)
    {
      if i == k {
        assert b + n <= order[j - 1];
      } else if j == k {
        assert Clear(o, units, i, k);
      } else {
        assert Clear(order, units, if i < k then i else i - 1, if j < k then j else j - 1);
      }
    }
  }

  /** Insertion disturbs the coalescing only at the new block's two edges. */
  lemma ApartInsert(order: seq<nat>, units: map<nat, nat>, k: nat, b: nat, n: nat, i: nat)
    requires Coalesced(order, units) && k <= |order| && b !in order && i <= |order| && i != k && i + 1 != k
    ensures Apart(InsertAt(order, k, b), units[b := n], i)
  {
    var j := if i < k then i else i - 1;
    assert Apart(order, units, j);
  }

  lemma CoversInsert(order: seq<nat>, units: map<nat, nat>, k: nat, b: nat, n: nat, c: nat)
    requires k <= |order| && b !in order
    ensures Covers(InsertAt(order, k, b), units[b := n], c) <==> Covers(order, units, c) || b <= c < b + n
  {
    var o, u := InsertAt(order, k, b), units[b := n];
    if Covers(o, u, c) {
      var i: nat :| Holds(o, u, i, c);
      if i != k {
        assert Holds(order, units, if i < k then i else i - 1, c);
      }
    }
    if Covers(order, units, c) {
      var i: nat :| Holds(order, units, i, c);
      assert Holds(o, u, if i < k then i else i + 1, c);
    }
    if b <= c < b + n {
      assert Holds(o, u, k, c);
    }
  }

  // ----- joining two touching blocks -----

  /** The list and sizes after block `i` has swallowed its right neighbour. */
  ghost predicate Joined(order: seq<nat>, units: map<nat, nat>, i: nat, o: seq<nat>, u: map<nat, nat>) {
    && i + 1 < |order| && order[i] in units && order[i + 1] in units
    && order[i] + units[order[i]] == order[i + 1]
    && o == RemoveAt(order, i + 1)
    && u == units[order[i] := units[order[i]] + units[order[i + 1]]]
  }

  lemma OrderedJoin(order: seq<nat>, units: map<nat, nat>, i: nat, o: seq<nat>, u: map<nat, nat>)
    requires Ordered(order, units) && Joined(order, units, i, o, u)
    ensures Ordered(o, u)
  {
    forall j: nat | j < |o|
      ensures Sized(o, u, j)
    {
      assert Sized(order, units, if j <= i then j else j + 1);
    }
    forall j: nat, m: nat | j < m < |o|
      ensures Clear(o, u, j, m)
    {
      if j == i {
        assert Clear(order, units, i + 1, m + 1);
      } else {
        var j0 := if j <= i then j else j + 1;
        assert Clear(order, units, j0, if m <= i then m else m + 1);
        hide Ordered;
        Differ(order, units, j0, i);
      }
    }
  }

  lemma ApartJoin(order: seq<nat>, units: map<nat, nat>, i: nat, o: seq<nat>, u: map<nat, nat>, j: nat)
    requires Ordered(order, units) && Joined(order, units, i, o, u) && j < |o|
    requires Apart(order, units, if j < i then j else j + 1)
    ensures Apart(o, u, j)
  {
    hide Ordered;
    if j < i {
      Differ(order, units, j, i);
    } else if j > i {
      Differ(order, units, j + 1, i);
    }
  }

  lemma CoversJoin(order: seq<nat>, units: map<nat, nat>, i: nat, o: seq<nat>, u: map<nat, nat>, c: nat)
    requires Ordered(order, units) && Joined(order, units, i, o, u)
    ensures Covers(o, u, c) <==> Covers(order, units, c)
  {
    hide Ordered;
    if Covers(o, u, c) {
      var j: nat :| Holds(o, u, j, c);
      if j == i {
        assert Holds(order, units, i, c) || Holds(order, units, i + 1, c);
      } else {
        var j0 := if j < i then j else j + 1;
        Differ(order, units, j0, i);
        assert Holds(order, units, j0, c);
      }
    }
    if Covers(order, units, c) {
      var j: nat :| Holds(order, units, j, c);
      if j != i {
        Differ(order, units, j, i);
      }
      assert Holds(o, u, if j <= i then j else j - 1, c);
    }
  }

  // ----- cutting units off the front of a block -----

  predicate SameSize(order: seq<nat>, u: map<nat, nat>, v: map<nat, nat>, i: nat) {
    i < |order| && order[i] in u && order[i] in v && v[order[i]] == u[order[i]]
  }

  /** The list after `n` units were cut off block `j`; a block with no units left is gone. */
  ghost predicate Cut(order: seq<nat>, units: map<nat, nat>, j: nat, n: nat, o: seq<nat>, v: map<nat, nat>) {
    && j < |order| && order[j] in units && 0 < n <= units[order[j]]
    && (n == units[order[j]] ==> o == RemoveAt(order, j))
    && (n < units[order[j]] ==>
         o == order[j := order[j] + n] && order[j] + n in v && v[order[j] + n] == units[order[j]] - n)
    && (forall i: nat :: i < |order| && i != j ==> SameSize(order, units, v, i))
  }

  /** Another block lies clear of block `j`. */
  lemma Beside(order: seq<nat>, units: map<nat, nat>, j: nat, i: nat)
    requires Ordered(order, units) && j < |order| && i < |order| && i != j
    ensures order[i] in units && order[j] in units && units[order[i]] > 0
    ensures if i < j then order[i] + units[order[i]] <= order[j] else order[j] + units[order[j]] <= order[i]
  {
    assert Sized(order, units, i) && Sized(order, units, j);
    if i < j {
      assert Clear(order, units, i, j);
    } else {
      assert Clear(order, units, j, i);
    }
  }

  lemma CutOrdered(order: seq<nat>, units: map<nat, nat>, j: nat, n: nat, o: seq<nat>, v: map<nat, nat>)
    requires Ordered(order, units) && Cut(order, units, j, n, o, v)
    ensures Ordered(o, v)
  {
    var gone := n == units[order[j]];
    forall i: nat | i < |o|
      ensures Sized(o, v, i)
    {
      var i0 := if gone && i >= j then i + 1 else i;
      if i0 != j {
        Beside(order, units, j, i0);
        assert SameSize(order, units, v, i0);
      }
    }
    forall i: nat, h: nat | i < h < |o|
      ensures Clear(o, v, i, h)
    {
      var i0, h0 := if gone && i >= j then i + 1 else i, if gone && h >= j then h + 1 else h;
      Beside(order, units, h0, i0);
      if i0 != j {
        assert SameSize(order, units, v, i0);
      }
    }
  }

  lemma CutApart(order: seq<nat>, units: map<nat, nat>, j: nat, n: nat, o: seq<nat>, v: map<nat, nat>)
    requires Ordered(order, units) && Coalesced(order, units) && Cut(order, units, j, n, o, v)
    ensures Coalesced(o, v)
  {
    hide Ordered;
    var gone := n == units[order[j]];
    forall i: nat | i < |o|
      ensures Apart(o, v, i)
    {
      var i0 := if gone && i >= j then i + 1 else i;
      assert Apart(order, units, i0);
      if i0 != j {
        Beside(order, units, j, i0);
        assert SameSize(order, units, v, i0);
        if gone && i + 1 == j && j + 1 < |order| {
          Beside(order, units, j, j + 1);
        }
      }
    }
  }

  lemma CutCovers(order: seq<nat>, units: map<nat, nat>, j: nat, n: nat, o: seq<nat>, v: map<nat, nat>, c: nat)
    requires Ordered(order, units) && Cut(order, units, j, n, o, v)
    ensures Covers(o, v, c) <==> Covers(order, units, c) && !(order[j] <= c < order[j] + n)
  {
    hide Ordered;
    var gone := n == units[order[j]];
    if Covers(o, v, c) {
      var i: nat :| Holds(o, v, i, c);
      var i0 := if gone && i >= j then i + 1 else i;
      if i0 != j {
        Beside(order, units, j, i0);
        assert SameSize(order, units, v, i0);
      }
      assert Holds(order, units, i0, c);
    }
    if Covers(order, units, c) && !(order[j] <= c < order[j] + n) {
      var i: nat :| Holds(order, units, i, c);
      if i != j {
        Beside(order, units, j, i);
        assert SameSize(order, units, v, i);
      }
      assert Holds(o, v, if gone && i > j then i - 1 else i, c);
    }
  }
}
