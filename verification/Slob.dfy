/**
 The circular singly linked list that the SLOB heap threads through its free blocks.
 `order` is the list starting at its lowest address, `next` and `units` are the two words
 at the head of every block.
 */
module SlobList {
  import opened FreeList

  function After(i: nat, n: nat): nat
    requires i < n
  {
    if i + 1 < n then i + 1 else 0
  }

  function Before(i: nat, n: nat): nat
    requires i <= n && n > 0
  {
    if i == 0 then n - 1 else i - 1
  }

  predicate LinkAt(order: seq<nat>, next: map<nat, nat>, i: nat)
    requires i < |order|
  {
    order[i] in next && next[order[i]] == order[After(i, |order|)]
  }

  /** Following `next` goes round `order` once. */
  ghost predicate Linked(order: seq<nat>, next: map<nat, nat>) {
    forall i: nat :: i < |order| ==> LinkAt(order, next, i)
  }

  // ----- inserting a block -----

  lemma LinkedInsert(order: seq<nat>, units: map<nat, nat>, next: map<nat, nat>, k: nat, b: nat)
    requires Ordered(order, units) && Linked(order, next) && k <= |order| && |order| > 0 && b !in order
    ensures order[Before(k, |order|)] in next
    ensures var cur := order[Before(k, |order|)]; Linked(InsertAt(order, k, b), next[b := next[cur]][cur := b])
  {
    hide Ordered;
    var n, o := |order|, InsertAt(order, k, b);
    var p := Before(k, n);
    assert LinkAt(order, next, p);
    var cur := order[p];
    var nx := next[b := next[cur]][cur := b];
    forall i: nat | i < n + 1
      ensures LinkAt(o, nx, i)
    {
      if i != k {
        var j := if i < k then i else i - 1;
        assert LinkAt(order, next, j) && o[i] == order[j];
        if j != p {
          Differ(order, units, j, p);
        }
      }
    }
  }

  // ----- joining two touching blocks -----

  lemma LinkedRemove(order: seq<nat>, units: map<nat, nat>, next: map<nat, nat>, k: nat)
    requires Ordered(order, units) && Linked(order, next) && k < |order| && |order| > 1
    ensures order[k] in next
    ensures Linked(RemoveAt(order, k), next[order[Before(k, |order|)] := next[order[k]]])
  {
    hide Ordered;
    var n, o := |order|, RemoveAt(order, k);
    var p := Before(k, n);
    assert LinkAt(order, next, p) && LinkAt(order, next, k);
    var nx := next[order[p] := next[order[k]]];
    forall i: nat | i < n - 1
      ensures LinkAt(o, nx, i)
    {
      var j := if i < k then i else i + 1;
      assert LinkAt(order, next, j) && o[i] == order[j];
      if j != p {
        Differ(order, units, j, p);
      }
    }
  }

  // ----- the place of an address -----

  /** Where address `b` belongs in the list. */
  function Position(order: seq<nat>, b: nat): (k: nat)
    ensures k <= |order| && (k > 0 ==> order[k - 1] < b) && (k < |order| ==> order[k] >= b)
  {
    if order == [] || order[|order| - 1] < b then |order| else Position(order[..|order| - 1], b)
  }

  /** The exit test of the search in `slob_free`. */
  predicate Fits(b: nat, cur: nat, nxt: nat) {
    (b > cur && b < nxt) || (cur >= nxt && (b > cur || b < nxt))
  }

  /** The search stops at the block before the position of `b`, and only there. */
  lemma FitsAt(order: seq<nat>, units: map<nat, nat>, next: map<nat, nat>, b: nat, i: nat)
    requires Ordered(order, units) && Linked(order, next) && i < |order| && b !in order
    ensures order[i] in next && (Fits(b, order[i], next[order[i]]) <==> i == Before(Position(order, b), |order|))
  {
    hide Ordered;
    var k, n := Position(order, b), |order|;
    assert LinkAt(order, next, i);
    assert b != order[i] && b != order[After(i, n)];
    if i + 1 < n {
      Less(order, units, i, i + 1);
      if i + 1 < k - 1 {
        Less(order, units, i + 1, k - 1);
      }
      if k < i {
        Less(order, units, k, i);
      }
    } else {
      if 0 < n - 1 {
        Less(order, units, 0, n - 1);
      }
      if 0 < k - 1 {
        Less(order, units, 0, k - 1);
      }
      if k < n - 1 {
        Less(order, units, k, n - 1);
      }
    }
  }
}
