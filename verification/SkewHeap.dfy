/**
 The skew heap that holds the runnable processes, with its left, right and
 parent pointers rewritten in place, and keyed by wrapping 32-bit strides.

 A ghost tree names the objects of a heap in their tree positions; the keys are
 the strides without wrap-around.
 */
module SkewHeap {

  const WRAP: int := 0x1_0000_0000
  const BIG_STRIDE: int := 0x7FFF_FFFF

  class Proc {
    var left: Proc?
    var right: Proc?
    var parent: Proc?
    var stride: nat       // lab6_stride, a uint32_t
    var priority: nat     // lab6_priority, a uint32_t
    var timeSlice: nat

    constructor ()
      ensures left == null && right == null && parent == null
      ensures stride == 0 && priority == 0 && timeSlice == 0
    {
      left, right, parent := null, null, null;
      stride, priority, timeSlice := 0, 0, 0;
    }
  }

  /** The 32-bit difference `a - b` read as a signed integer. */
  function SignedDiff(a: nat, b: nat): (c: int)
    requires a < WRAP && b < WRAP
  {
    var d := (a - b) % WRAP;
    if d <= BIG_STRIDE then d else d - WRAP
  }

  /** `proc_stride_comp_f` */
  function Compare(a: nat, b: nat): (c: int)
    requires a < WRAP && b < WRAP
  {
    var d := SignedDiff(a, b);
    if d > 0 then 1 else if d == 0 then 0 else -1
  }

  function Sign(d: int): int { if d > 0 then 1 else if d == 0 then 0 else -1 }

  lemma CompareMod(x: nat, y: nat)
    ensures (x % WRAP - y % WRAP) % WRAP == (x - y) % WRAP
  {
    var q := x / WRAP - y / WRAP;
    assert x - y == x % WRAP - y % WRAP + q * WRAP;
    ModShift(x % WRAP - y % WRAP, q);
  }

  /** The wrapped comparison is right exactly when the wrapped distance has the sign of the true one. */
  lemma CompareExact(x: nat, y: nat)
    ensures Compare(x % WRAP, y % WRAP) == Sign(x - y) <==>
              if x > y then 0 < (x - y) % WRAP <= BIG_STRIDE else if x < y then (x - y) % WRAP > BIG_STRIDE else true
    ensures -WRAP < x - y < WRAP ==>
              (Compare(x % WRAP, y % WRAP) == Sign(x - y) <==> -BIG_STRIDE - 1 <= x - y <= BIG_STRIDE)
    ensures -WRAP < x - y < WRAP && !(-BIG_STRIDE - 1 <= x - y <= BIG_STRIDE) ==>
              Compare(x % WRAP, y % WRAP) == -Sign(x - y)
  {
    CompareMod(x, y);
  }

  /** Inside the window the wrapped comparison is the true one. */
  lemma CompareInWindow(x: nat, y: nat)
    requires -BIG_STRIDE - 1 <= x - y <= BIG_STRIDE
    ensures Compare(x % WRAP, y % WRAP) == (if x > y then 1 else if x == y then 0 else -1)
  {
    CompareExact(x, y);
  }

  lemma ModShift(a: int, q: int)
    ensures (a + q * WRAP) % WRAP == a % WRAP
  {
  }

  // ----- ghost trees -----

  datatype Tree = Nil | Fork(node: Proc, l: Tree, r: Tree)

  ghost function Nodes(t: Tree): set<Proc> {
    match t
    case Nil => {}
    case Fork(n, l, r) => {n} + Nodes(l) + Nodes(r)
  }

  ghost function Root(t: Tree): Proc? {
    if t.Nil? then null else t.node
  }

  /** The pointers spell out exactly this tree, parents included. */
  ghost predicate Shape(t: Tree)
    reads Nodes(t)
  {
    t.Fork? ==>
      && t.node !in Nodes(t.l) && t.node !in Nodes(t.r) && Nodes(t.l) !! Nodes(t.r)
      && t.node.left == Root(t.l) && t.node.right == Root(t.r)
      && (t.l.Fork? ==> t.l.node.parent == t.node)
      && (t.r.Fork? ==> t.r.node.parent == t.node)
      && Shape(t.l) && Shape(t.r)
  }

  /** Every node but `x` is no larger than all other nodes below it. */
  ghost predicate Ordered(t: Tree, key: map<Proc, nat>, x: Proc?) {
    t.Fork? ==>
      && Ordered(t.l, key, x) && Ordered(t.r, key, x)
      && (t.node != x ==> forall m :: m in Nodes(t) && m != x ==> t.node in key && m in key && key[t.node] <= key[m])
  }

  /** The keys lie within one window. */
  ghost predicate Window(S: set<Proc>, key: map<Proc, nat>) {
    S <= key.Keys && forall p, q :: p in S && q in S ==> key[p] - key[q] <= BIG_STRIDE
  }

  /** The stored strides are the keys modulo 2^32, and the keys lie within one window. */
  ghost predicate Agrees(S: set<Proc>, key: map<Proc, nat>)
    reads S
  {
    Window(S, key) && forall p :: p in S ==> p.stride == key[p] % WRAP
  }

  /** What a merge does to the trees. */
  ghost function Merged(a: Tree, b: Tree, key: map<Proc, nat>): Tree
    requires Nodes(a) + Nodes(b) <= key.Keys
  {
    if a.Nil? then b
    else if b.Nil? then a
    else if key[a.node] < key[b.node] then Fork(a.node, Merged(a.r, b, key), a.l)
    else Fork(b.node, Merged(a, b.r, key), b.l)
  }

  lemma {:induction false} MergedNodes(a: Tree, b: Tree, key: map<Proc, nat>)
    requires Nodes(a) + Nodes(b) <= key.Keys
    ensures Nodes(Merged(a, b, key)) == Nodes(a) + Nodes(b)
  {
    if a.Fork? && b.Fork? {
      if key[a.node] < key[b.node] {
        MergedNodes(a.r, b, key);
      } else {
        MergedNodes(a, b.r, key);
      }
    }
  }

  lemma {:induction false} MergedOrdered(a: Tree, b: Tree, key: map<Proc, nat>)
    requires Nodes(a) + Nodes(b) <= key.Keys && Ordered(a, key, null) && Ordered(b, key, null)
    ensures Ordered(Merged(a, b, key), key, null)
  {
    MergedNodes(a, b, key);
    if a.Fork? && b.Fork? {
      if key[a.node] < key[b.node] {
        MergedOrdered(a.r, b, key);
        MergedNodes(a.r, b, key);
      } else {
        MergedOrdered(a, b.r, key);
        MergedNodes(a, b.r, key);
      }
    }
  }

  lemma {:induction false} NodesAllocated(t: Tree)
    ensures forall n :: n in Nodes(t) ==> allocated(n)
  {
    if t.Fork? {
      NodesAllocated(t.l);
      NodesAllocated(t.r);
    }
  }

  /** A tree keeps its shape while its pointers do; the root's parent is not part of it. */
  twostate lemma {:induction false} SameShape(t: Tree)
    requires old(Shape(t)) && forall n :: n in Nodes(t) ==> old(allocated(n))
    requires forall n :: n in Nodes(t) ==> n.left == old(n.left) && n.right == old(n.right)
    requires forall n :: n in Nodes(t) && n != Root(t) ==> n.parent == old(n.parent)
    ensures Shape(t)
  {
    if t.Fork? {
      SameShape(t.l);
      SameShape(t.r);
    }
  }

  /** The pointer writes shared by the two branches of a merge. */
  method Attach(a: Proc, l: Proc?, r: Proc?, ghost tl: Tree, ghost tr: Tree)
    requires Shape(tl) && Shape(tr) && l == Root(tl) && r == Root(tr)
    requires a !in Nodes(tl) && a !in Nodes(tr) && Nodes(tl) !! Nodes(tr)
    requires r != null ==> r.parent == a
    modifies a`left, a`right, Nodes(tl)`parent
    ensures Shape(Fork(a, tl, tr))
  {
    NodesAllocated(tl);
    a.left := l;
    a.right := r;
    if l != null {
      l.parent := a;
    }
    SameShape(tl);
  }

  /** `skew_heap_merge` */
  method Merge(a: Proc?, b: Proc?, ghost ta: Tree, ghost tb: Tree, ghost key: map<Proc, nat>) returns (root: Proc?)
    requires Shape(ta) && Shape(tb) && Nodes(ta) !! Nodes(tb) && a == Root(ta) && b == Root(tb)
    requires Agrees(Nodes(ta) + Nodes(tb), key)
    modifies (Nodes(ta) + Nodes(tb))`left, (Nodes(ta) + Nodes(tb))`right, (Nodes(ta) + Nodes(tb))`parent
    ensures Shape(Merged(ta, tb, key)) && root == Root(Merged(ta, tb, key))
    ensures root != null ==> root.parent == old(root.parent)
    decreases ta, tb
  {
    if a == null {
      return b;
    } else if b == null {
      return a;
    }
    CompareRoots(ta, tb, key);
    if Compare(a.stride, b.stride) == -1 {
      MergedNodes(ta.r, tb, key);
      var r := a.left;
      var l := Merge(a.right, b, ta.r, tb, key);
      Attach(a, l, r, Merged(ta.r, tb, key), ta.l);
      return a;
    } else {
      MergedNodes(ta, tb.r, key);
      var r := b.left;
      var l := Merge(a, b.right, ta, tb.r, key);
      Attach(b, l, r, Merged(ta, tb.r, key), tb.l);
      return b;
    }
  }

  lemma CompareRoots(ta: Tree, tb: Tree, key: map<Proc, nat>)
    requires ta.Fork? && tb.Fork? && Agrees(Nodes(ta) + Nodes(tb), key)
    ensures ta.node.stride < WRAP && tb.node.stride < WRAP
    ensures ta.node in key && tb.node in key
    ensures Compare(ta.node.stride, tb.node.stride) == -1 <==> key[ta.node] < key[tb.node]
  {
    var a, b := ta.node, tb.node;
    assert a in Nodes(ta) + Nodes(tb) && b in Nodes(ta) + Nodes(tb);
    CompareInWindow(key[a], key[b]);
  }

  /** A whole heap: pointers, stored strides and order, the latter except at `x`. */
  ghost predicate Heap(t: Tree, root: Proc?, key: map<Proc, nat>, x: Proc?)
    reads Nodes(t)
  {
    && Shape(t) && root == Root(t) && (t.Fork? ==> t.node in Nodes(t) && t.node.parent == null)
    && Nodes(t) <= key.Keys && Agrees(Nodes(t), key) && Ordered(t, key, x)
  }

  /** `skew_heap_insert` of a process whose key lies in the window. */
  method Insert(a: Proc?, b: Proc, ghost t: Tree, ghost key: map<Proc, nat>) returns (root: Proc, ghost t': Tree)
    requires Heap(t, a, key, null) && b !in Nodes(t) && b in key && Agrees(Nodes(t) + {b}, key)
    modifies (Nodes(t) + {b})`left, (Nodes(t) + {b})`right, (Nodes(t) + {b})`parent
    ensures Heap(t', root, key, null) && Nodes(t') == Nodes(t) + {b}
  {
    b.left, b.right, b.parent := null, null, null;
    ghost var leaf := Fork(b, Nil, Nil);
    assert Nodes(leaf) == {b};
    MergedNodes(t, leaf, key);
    MergedOrdered(t, leaf, key);
    root := Merge(a, b, t, leaf, key);
    t' := Merged(t, leaf, key);
  }

  // ----- removal of any node -----

  /** The subtree rooted at `b`. */
  ghost function Sub(t: Tree, b: Proc): Tree {
    if t.Nil? then Nil
    else if t.node == b then t
    else if b in Nodes(t.l) then Sub(t.l, b)
    else Sub(t.r, b)
  }

  ghost function Removed(t: Tree, b: Proc, key: map<Proc, nat>): Tree
    requires Nodes(t) <= key.Keys
  {
    if t.Nil? then Nil
    else if t.node == b then Merged(t.l, t.r, key)
    else if b in Nodes(t.l) then Fork(t.node, Removed(t.l, b, key), t.r)
    else if b in Nodes(t.r) then Fork(t.node, t.l, Removed(t.r, b, key))
    else t
  }

  /** No object occurs twice in the tree. */
  ghost predicate Distinct(t: Tree) {
    t.Fork? ==>
      && t.node !in Nodes(t.l) && t.node !in Nodes(t.r) && Nodes(t.l) !! Nodes(t.r)
      && Distinct(t.l) && Distinct(t.r)
  }

  lemma {:induction false} ShapeDistinct(t: Tree)
    requires Shape(t)
    ensures Distinct(t)
  {
    if t.Fork? {
      ShapeDistinct(t.l);
      ShapeDistinct(t.r);
    }
  }

  lemma {:induction false} SubFacts(t: Tree, b: Proc)
    requires Shape(t) && b in Nodes(t)
    ensures Sub(t, b).Fork? && Sub(t, b).node == b && Shape(Sub(t, b)) && Nodes(Sub(t, b)) <= Nodes(t)
    ensures b != Root(t) ==>
              b.parent != null && b.parent in Nodes(t) - Nodes(Sub(t, b)) && (b.parent.left == b || b.parent.right == b)
    ensures b != Root(t) ==> Root(t) !in Nodes(Sub(t, b))
  {
    if t.node != b {
      if b in Nodes(t.l) {
        SubFacts(t.l, b);
      } else {
        SubFacts(t.r, b);
      }
    }
  }

  lemma {:induction false} RemovedNodes(t: Tree, b: Proc, key: map<Proc, nat>)
    requires Distinct(t) && Nodes(t) <= key.Keys
    ensures Nodes(Removed(t, b, key)) == Nodes(t) - {b}
  {
    if t.Fork? {
      if t.node == b {
        MergedNodes(t.l, t.r, key);
      } else if b in Nodes(t.l) {
        RemovedNodes(t.l, b, key);
      } else if b in Nodes(t.r) {
        RemovedNodes(t.r, b, key);
      }
    }
  }

  /** Only the part of the order that does not involve the removed node is needed,
      and the whole order comes back. */
  lemma {:induction false} RemovedOrdered(t: Tree, b: Proc, key: map<Proc, nat>)
    requires Distinct(t) && Nodes(t) <= key.Keys && b in Nodes(t) && Ordered(t, key, b)
    ensures Ordered(Removed(t, b, key), key, null)
  {
    RemovedNodes(t, b, key);
    if t.node == b {
      Unskip(t.l, b, key);
      Unskip(t.r, b, key);
      MergedOrdered(t.l, t.r, key);
    } else if b in Nodes(t.l) {
      RemovedOrdered(t.l, b, key);
      RemovedNodes(t.l, b, key);
      Unskip(t.r, b, key);
    } else {
      RemovedOrdered(t.r, b, key);
      RemovedNodes(t.r, b, key);
      Unskip(t.l, b, key);
    }
  }

  lemma {:induction false} Unskip(t: Tree, b: Proc, key: map<Proc, nat>)
    requires b !in Nodes(t) && Ordered(t, key, b)
    ensures Ordered(t, key, null)
  {
    if t.Fork? {
      Unskip(t.l, b, key);
      Unskip(t.r, b, key);
    }
  }

  // The argument that the whole tree survives the splice is made on snapshots
  // of the pointers.

  datatype Links = Links(l: Proc?, r: Proc?, p: Proc?)

  ghost function Snapshot(S: set<Proc>): map<Proc, Links>
    reads S`left, S`right, S`parent
  {
    map n | n in S :: Links(n.left, n.right, n.parent)
  }

  /** `Shape` in terms of a snapshot. */
  ghost predicate ShapeIn(t: Tree, h: map<Proc, Links>) {
    t.Fork? ==>
      && t.node !in Nodes(t.l) && t.node !in Nodes(t.r) && Nodes(t.l) !! Nodes(t.r)
      && t.node in h && h[t.node].l == Root(t.l) && h[t.node].r == Root(t.r)
      && (t.l.Fork? ==> t.l.node in h && h[t.l.node].p == t.node)
      && (t.r.Fork? ==> t.r.node in h && h[t.r.node].p == t.node)
      && ShapeIn(t.l, h) && ShapeIn(t.r, h)
  }

  lemma {:induction false} ShapeSnapshot(t: Tree, S: set<Proc>)
    requires Nodes(t) <= S
    ensures Shape(t) <==> ShapeIn(t, Snapshot(S))
  {
    if t.Fork? {
      ShapeSnapshot(t.l, S);
      ShapeSnapshot(t.r, S);
    }
  }

  /** A subtree keeps its shape when none of its links change. */
  lemma {:induction false} SameLinks(t: Tree, h: map<Proc, Links>, h': map<Proc, Links>)
    requires ShapeIn(t, h)
    requires forall n :: n in Nodes(t) ==> n in h && n in h' && h'[n] == h[n]
    ensures ShapeIn(t, h')
  {
    if t.Fork? {
      SameLinks(t.l, h, h');
      SameLinks(t.r, h, h');
    }
  }

  /** From `h` to `h'`, outside the subtree of `b`, only the child link of `p`
      that led to `b` changed, and it now leads to `rep`. */
  ghost predicate SplicedAt(t: Tree, b: Proc, p: Proc, rep: Tree, h: map<Proc, Links>, h': map<Proc, Links>) {
    && (forall n :: n in Nodes(t) ==> n in h)
    && (forall n :: n in Nodes(t) && n !in Nodes(Sub(t, b)) && n != p ==> n in h' && h'[n] == h[n])
    && p in h && p in h'
    && h'[p] == (if h[p].l == b then h[p].(l := Root(rep)) else h[p].(r := Root(rep)))
  }

  lemma {:induction false} Spliced(t: Tree, b: Proc, p: Proc, rep: Tree, key: map<Proc, nat>, h: map<Proc, Links>,
                                   h': map<Proc, Links>)
    requires ShapeIn(t, h) && Distinct(t) && b in Nodes(t) && Root(t) != b && b in h && h[b].p == p
    requires Nodes(t) <= key.Keys && Sub(t, b).Fork? && Nodes(Sub(t, b).l) + Nodes(Sub(t, b).r) <= key.Keys
    requires rep == Merged(Sub(t, b).l, Sub(t, b).r, key) && ShapeIn(rep, h')
    requires rep.Fork? ==> rep.node in h' && h'[rep.node].p == p
    requires SplicedAt(t, b, p, rep, h, h')
    ensures ShapeIn(Removed(t, b, key), h') && Root(Removed(t, b, key)) == t.node
  {
    RemovedNodes(t, b, key);
    var side := if b in Nodes(t.l) then t.l else t.r;
    var other := if b in Nodes(t.l) then t.r else t.l;
    SubWithin(side, b);
    RemovedNodes(side, b, key);
    if side.node == b {
      assert p == t.node;
      assert Removed(side, b, key) == rep;
    } else {
      ParentInside(side, b, h);
      Spliced(side, b, p, rep, key, h, h');
    }
    SameLinks(other, h, h');
  }

  lemma {:induction false} SubWithin(t: Tree, b: Proc)
    requires b in Nodes(t)
    ensures Nodes(Sub(t, b)) <= Nodes(t)
  {
    if t.node != b {
      SubWithin(if b in Nodes(t.l) then t.l else t.r, b);
    }
  }

  /** Below the root, the parent of `b` is in the tree and outside the subtree of `b`. */
  lemma {:induction false} ParentInside(t: Tree, b: Proc, h: map<Proc, Links>)
    requires ShapeIn(t, h) && b in Nodes(t) && Root(t) != b && b in h
    ensures h[b].p != null && h[b].p in Nodes(t) && h[b].p !in Nodes(Sub(t, b)) && t.node !in Nodes(Sub(t, b))
  {
    var side := if b in Nodes(t.l) then t.l else t.r;
    SubWithin(side, b);
    if side.node != b {
      ParentInside(side, b, h);
    }
  }

  /** The first half of a removal: the children of `b` become one heap below `p`. */
  method MergeChildren(b: Proc, p: Proc?, ghost sub: Tree, ghost key: map<Proc, nat>) returns (top: Proc?)
    requires Shape(sub) && sub.Fork? && sub.node == b && Agrees(Nodes(sub) - {b}, key)
    modifies (Nodes(sub) - {b})`left, (Nodes(sub) - {b})`right, (Nodes(sub) - {b})`parent
    ensures Nodes(sub.l) + Nodes(sub.r) <= key.Keys
    ensures var rep := Merged(sub.l, sub.r, key);
            Shape(rep) && top == Root(rep) && (top != null ==> top.parent == p)
  {
    assert Nodes(sub.l) + Nodes(sub.r) == Nodes(sub) - {b};
    ghost var rep := Merged(sub.l, sub.r, key);
    MergedNodes(sub.l, sub.r, key);
    NodesAllocated(rep);
    top := Merge(b.left, b.right, sub.l, sub.r, key);
    label merged:
    if top != null {
      top.parent := p;
    }
    SameShape@merged(rep);
  }

  /** The second half: the parent of `b` gets the merged children instead. */
  method Relink(b: Proc, p: Proc, top: Proc?, ghost t: Tree, ghost rep: Tree, ghost key: map<Proc, nat>,
                ghost h: map<Proc, Links>)
    requires ShapeIn(t, h) && Distinct(t) && b in Nodes(t) && Root(t) != b && h.Keys == Nodes(t) <= key.Keys
             && h[b].p == p
    requires Sub(t, b).Fork? && Nodes(Sub(t, b).l) + Nodes(Sub(t, b).r) <= key.Keys
    requires rep == Merged(Sub(t, b).l, Sub(t, b).r, key) && Nodes(rep) <= Nodes(Sub(t, b))
    requires Shape(rep) && top == Root(rep) && (top != null ==> top.parent == p)
    requires forall n :: n in Nodes(t) && n !in Nodes(Sub(t, b)) ==> h[n] == Links(n.left, n.right, n.parent)
    modifies p`left, p`right
    ensures Shape(Removed(t, b, key)) && Root(Removed(t, b, key)) == Root(t)
  {
    ParentInside(t, b, h);
    SubWithin(t, b);
    if p.left == b {
      p.left := top;
    } else {
      p.right := top;
    }
    ghost var h' := Snapshot(Nodes(t));
    ShapeSnapshot(rep, Nodes(t));
    Spliced(t, b, p, rep, key, h, h');
    RemovedNodes(t, b, key);
    ShapeSnapshot(Removed(t, b, key), Nodes(t));
  }

  /** `skew_heap_remove`: `b` may be anywhere in the heap, and the heap may be out
      of order at `b`. */
  method Remove(a: Proc, b: Proc, ghost t: Tree, ghost key: map<Proc, nat>) returns (root: Proc?, ghost t': Tree)
    requires Heap(t, a, key, b) && b in Nodes(t)
    modifies Nodes(t)`left, Nodes(t)`right, Nodes(t)`parent
    ensures Heap(t', root, key, null) && Nodes(t') == Nodes(t) - {b}
  {
    ghost var h, sub := Snapshot(Nodes(t)), Sub(t, b);
    ShapeDistinct(t);
    SubFacts(t, b);
    ShapeSnapshot(t, Nodes(t));
    MergedNodes(sub.l, sub.r, key);
    RemovedNodes(t, b, key);
    RemovedOrdered(t, b, key);
    t' := Removed(t, b, key);
    var p := b.parent;
    var top := MergeChildren(b, p, sub, key);
    if p != null {
      Relink(b, p, top, t, Merged(sub.l, sub.r, key), key, h);
      root := a;
    } else {
      root := top;
    }
  }
}
