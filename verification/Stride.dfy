/**
 Stride scheduling: the run queue over the skew heap, and what it guarantees
 over runs of any length although the stored strides wrap at 32 bits.
 */
module Stride {
  import opened SkewHeap

  /** How far a process advances each time it is picked: the longest step that BIG_STRIDE holds `priority` times. */
  function Pass(priority: nat): (d: nat)
    ensures d <= BIG_STRIDE
    ensures priority == 0 ==> d == 0x7FFF_FFFF
    ensures priority > 0 ==> d * priority <= BIG_STRIDE < (d + 1) * priority
  {
    if priority == 0 then BIG_STRIDE else PassBound(priority); BIG_STRIDE / priority
  }

  lemma PassBound(priority: nat)
    requires priority > 0
    ensures var d := BIG_STRIDE / priority;
            0 <= d <= BIG_STRIDE && d * priority <= BIG_STRIDE < (d + 1) * priority
  {
    DivideBound(BIG_STRIDE, priority);
  }

  lemma DivideBound(n: nat, p: nat)
    requires p > 0
    ensures 0 <= n / p <= n && n / p * p <= n < (n / p + 1) * p
  {
    var d, r := n / p, n % p;
    assert n == d * p + r && 0 <= r < p;
    hide *;
    SumBound(n, d, p, r);
  }

  lemma SumBound(n: nat, d: int, p: nat, r: nat)
    requires p > 0 && r < p && n == d * p + r
    ensures 0 <= d <= n && d * p <= n < (d + 1) * p
  {
    if d < 0 {
      LessTimes(d, -1, p);
    } else {
      LessTimes(1, p, d);
    }
  }

  ghost predicate IsLeast(p: Proc, S: set<Proc>, key: map<Proc, nat>) {
    p in S && S <= key.Keys && forall q :: q in S ==> key[p] <= key[q]
  }

  /** The picked root advances; afterwards the heap may be out of order there only. */
  method Advance(p: Proc, ghost t: Tree, ghost key: map<Proc, nat>)
    requires Heap(t, p, key, null)
    modifies p`stride
    ensures p in key && Heap(t, p, key[p := key[p] + Pass(p.priority)], p)
  {
    hide Shape, Ordered, Window, Pass;
    NodesAllocated(t);
    ghost var key' := key[p := key[p] + Pass(p.priority)];
    RootLeast(t, key);
    AdvanceMod(key[p], Pass(p.priority));
    OrderedElsewhere(t, key, key', p);
    p.stride := (p.stride + Pass(p.priority)) % WRAP;
    SameShape(t);
    WindowAfterAdvance(Nodes(t), key, p, Pass(p.priority));
  }

  /** The least key may grow by one pass without leaving the window. */
  lemma WindowAfterAdvance(S: set<Proc>, key: map<Proc, nat>, p: Proc, d: nat)
    requires Window(S, key) && IsLeast(p, S, key) && d <= BIG_STRIDE
    ensures Window(S, key[p := key[p] + d])
  {
  }

  /** A process enters the queue with a usable time slice. */
  method RefillSlice(p: Proc, max: nat, root: Proc?, ghost t: Tree, ghost key: map<Proc, nat>)
    requires Heap(t, root, key, null)
    modifies p`timeSlice
    ensures Heap(t, root, key, null)
    ensures p.timeSlice == if old(p.timeSlice) == 0 || old(p.timeSlice) > max then max else old(p.timeSlice)
  {
    NodesAllocated(t);
    if p.timeSlice == 0 || p.timeSlice > max {
      p.timeSlice := max;
    }
    SameShape(t);
  }

  /** A newcomer inside the window may join the heap. */
  lemma Joins(t: Tree, root: Proc?, key: map<Proc, nat>, p: Proc, k: nat)
    requires Heap(t, root, key, null) && p !in Nodes(t) && p.stride == k % WRAP
    requires forall q :: q in Nodes(t) ==> -BIG_STRIDE <= key[q] - k <= BIG_STRIDE
    ensures Heap(t, root, key[p := k], null) && Agrees(Nodes(t) + {p}, key[p := k])
  {
    hide Shape, Ordered, Nodes;
    OrderedElsewhere(t, key, key[p := k], null);
  }

  /** `struct run_queue`, as the value its owner stores. */
  datatype RunQueue = RunQueue(pool: Proc?, procNum: nat, maxTimeSlice: nat)

  ghost predicate Valid(rq: RunQueue, t: Tree, key: map<Proc, nat>, x: Proc?)
    reads Nodes(t)
  {
    Heap(t, rq.pool, key, x) && rq.procNum == |Nodes(t)|
  }

  /** `stride_enqueue`; the caller keeps the newcomer inside the window. */
  method Enqueue(rq: RunQueue, p: Proc, ghost k: nat, ghost t: Tree, ghost key: map<Proc, nat>)
    returns (rq': RunQueue, ghost t': Tree)
    requires Valid(rq, t, key, null) && p !in Nodes(t) && p.stride == k % WRAP
    requires forall q :: q in Nodes(t) ==> -BIG_STRIDE <= key[q] - k <= BIG_STRIDE
    modifies p, Nodes(t)`left, Nodes(t)`right, Nodes(t)`parent
    ensures Valid(rq', t', key[p := k], null) && Nodes(t') == Nodes(t) + {p}
    ensures rq'.procNum == rq.procNum + 1 && p.stride == old(p.stride) && p.priority == old(p.priority)
    ensures p.timeSlice == if old(p.timeSlice) == 0 || old(p.timeSlice) > rq.maxTimeSlice then rq.maxTimeSlice
              else old(p.timeSlice)
  {
    ghost var key' := key[p := k];
    Joins(t, rq.pool, key, p, k);
    var root;
    root, t' := Insert(rq.pool, p, t, key');
    RefillSlice(p, rq.maxTimeSlice, root, t', key');
    rq' := rq.(pool := root, procNum := rq.procNum + 1);
  }

  /** `stride_pick_next`: a process of least true stride, which then advances by its
      pass.  The heap is left out of order at that process only. */
  method PickNext(rq: RunQueue, ghost t: Tree, ghost key: map<Proc, nat>) returns (p: Proc?)
    requires Valid(rq, t, key, null)
    modifies (if rq.pool == null then {} else {rq.pool})`stride
    ensures p == null <==> t.Nil?
    ensures p != null ==> IsLeast(p, Nodes(t), key) && Valid(rq, t, key[p := key[p] + Pass(p.priority)], p)
  {
    hide Shape, Ordered, Window, Agrees, Pass;
    if rq.pool == null {
      return null;
    }
    p := rq.pool;
    RootLeast(t, key);
    Advance(p, t, key);
  }

  /** `stride_dequeue` of a process wherever it is in the heap. */
  method Dequeue(rq: RunQueue, p: Proc, ghost t: Tree, ghost key: map<Proc, nat>)
    returns (rq': RunQueue, ghost t': Tree)
    requires Valid(rq, t, key, p) && p in Nodes(t)
    modifies Nodes(t)`left, Nodes(t)`right, Nodes(t)`parent
    ensures Valid(rq', t', key, null) && Nodes(t') == Nodes(t) - {p} && rq'.procNum == rq.procNum - 1
  {
    var root;
    root, t' := Remove(rq.pool, p, t, key);
    rq' := rq.(pool := root, procNum := rq.procNum - 1);
  }

  /** From the processes `all`, one of least stride has been taken and advanced;
      the others stay queued, and it could rejoin them. */
  ghost predicate Taken(next: Proc, all: set<Proc>, key: map<Proc, nat>, rest: set<Proc>, key': map<Proc, nat>)
    reads next
  {
    && IsLeast(next, all, key) && rest == all - {next}
    && key' == key[next := key[next] + Pass(next.priority)]
    && next.stride == key'[next] % WRAP && Window(all, key')
  }

  lemma PoolQueued(rq: RunQueue, t: Tree, key: map<Proc, nat>)
    requires Valid(rq, t, key, null)
    ensures rq.pool == null <==> Nodes(t) == {}
    ensures rq.pool == null <==> t.Nil?
    ensures rq.pool != null ==> rq.pool in Nodes(t)
  {
  }

  lemma PickedLast(p: Proc, S: set<Proc>, key: map<Proc, nat>)
    requires IsLeast(p, S, key)
    ensures p in S && p in key
  {
  }

  lemma QueuedInWindow(rq: RunQueue, t: Tree, key: map<Proc, nat>, p: Proc)
    requires Valid(rq, t, key, p) && p in Nodes(t)
    ensures p in key && p.stride == key[p] % WRAP && Window(Nodes(t), key)
  {
  }

  /** The picking half of `schedule`. */
  method TakeNext(rq: RunQueue, ghost t: Tree, ghost key: map<Proc, nat>)
    returns (rq': RunQueue, next: Proc?, ghost t': Tree, ghost key': map<Proc, nat>)
    requires Valid(rq, t, key, null)
    modifies Nodes(t)`left, Nodes(t)`right, Nodes(t)`parent, Nodes(t)`stride
    ensures Valid(rq', t', key', null)
    ensures next == null <==> Nodes(t) == {}
    ensures if next == null then Nodes(t') == {} && key' == key else Taken(next, Nodes(t), key, Nodes(t'), key')
  {
    hide Heap, Nodes, Window, Pass, IsLeast;
    PoolQueued(rq, t, key);
    next := PickNext(rq, t, key);
    if next == null {
      rq', t', key' := rq, t, key;
    } else {
      PickedLast(next, Nodes(t), key);
      key' := key[next := key[next] + Pass(next.priority)];
      QueuedInWindow(rq, t, key', next);
      rq', t' := Dequeue(rq, next, t, key');
    }
  }

  /** One call of `schedule` by a runnable process: it goes back into the queue, and a
      process of least true stride comes out.  The window is kept, so the process
      may come back on the next call. */
  method Schedule(rq: RunQueue, current: Proc, ghost k: nat, ghost t: Tree, ghost key: map<Proc, nat>)
    returns (rq': RunQueue, next: Proc, ghost t': Tree, ghost key': map<Proc, nat>)
    requires Valid(rq, t, key, null) && current !in Nodes(t) && current.stride == k % WRAP
    requires forall q :: q in Nodes(t) ==> -BIG_STRIDE <= key[q] - k <= BIG_STRIDE
    modifies current, Nodes(t)`left, Nodes(t)`right, Nodes(t)`parent, Nodes(t)`stride
    ensures Valid(rq', t', key', null) && Taken(next, Nodes(t) + {current}, key[current := k], Nodes(t'), key')
    ensures current.priority == old(current.priority)
  {
    var q, t1 := Enqueue(rq, current, k, t, key);
    assert current in Nodes(t1);
    var out;
    rq', out, t', key' := TakeNext(q, t1, key[current := k]);
    next := out;
  }

  /** The order does not depend on the key of a node outside the tree or skipped. */
  lemma {:induction false} OrderedElsewhere(t: Tree, key: map<Proc, nat>, key': map<Proc, nat>, x: Proc?)
    requires Ordered(t, key, null)
    requires forall n :: n in Nodes(t) && n != x ==> n in key' && (n in key ==> key'[n] == key[n])
    ensures Ordered(t, key', x)
  {
    if t.Fork? {
      OrderedElsewhere(t.l, key, key', x);
      OrderedElsewhere(t.r, key, key', x);
    }
  }

  lemma RootLeast(t: Tree, key: map<Proc, nat>)
    requires Ordered(t, key, null) && t.Fork? && Nodes(t) <= key.Keys
    ensures IsLeast(t.node, Nodes(t), key)
  {
  }

  lemma AdvanceMod(k: nat, d: nat)
    ensures (k % WRAP + d) % WRAP == (k + d) % WRAP
  {
    assert k + d == k % WRAP + d + (k / WRAP) * WRAP;
    ModShift(k % WRAP + d, k / WRAP);
  }

  // ----- whole runs of a fixed set of processes -----

  /** `picks[i]` is a process no other comes before in the stored 32-bit strides of `tr[i]`, and it advances. */
  ghost predicate Run(tr: seq<seq<nat>>, pass: seq<nat>, picks: seq<nat>) {
    && |tr| == |picks| + 1 && |tr[0]| == |pass|
    && (forall p :: 0 <= p < |pass| ==> pass[p] <= BIG_STRIDE)
    && (forall i :: 0 <= i < |picks| ==>
          && |tr[i]| == |pass| && picks[i] < |pass|
          && (forall q :: 0 <= q < |pass| ==> Compare(tr[i][picks[i]] % WRAP, tr[i][q] % WRAP) != 1)
          && tr[i + 1] == tr[i][picks[i] := tr[i][picks[i]] + pass[picks[i]]])
  }

  ghost predicate InWindow(s: seq<nat>) {
    forall p, q :: 0 <= p < |s| && 0 <= q < |s| ==> s[p] - s[q] <= BIG_STRIDE
  }

  /** The picked process has the least true stride when the strides lie in a window. */
  lemma PickLeast(s: seq<nat>, pick: nat)
    requires pick < |s| && InWindow(s) && forall q :: 0 <= q < |s| ==> Compare(s[pick] % WRAP, s[q] % WRAP) != 1
    ensures forall q :: 0 <= q < |s| ==> s[pick] <= s[q]
  {
    forall q | 0 <= q < |s|
      ensures s[pick] <= s[q]
    {
      assert -BIG_STRIDE <= s[pick] - s[q] <= BIG_STRIDE;
      CompareInWindow(s[pick], s[q]);
    }
  }

  /** The window is never left, so the wrapped comparison stays exact for ever, and every pick is of least
      true stride. */
  lemma {:induction false} WrapSafe(tr: seq<seq<nat>>, pass: seq<nat>, picks: seq<nat>, i: nat)
    requires Run(tr, pass, picks) && InWindow(tr[0]) && i < |tr|
    ensures |tr[i]| == |pass| && InWindow(tr[i])
    ensures forall p, q :: 0 <= p < |pass| && 0 <= q < |pass| ==>
              Compare(tr[i][p] % WRAP, tr[i][q] % WRAP) == Sign(tr[i][p] as int - tr[i][q] as int)
    ensures i < |picks| ==> picks[i] < |pass| && forall q :: 0 <= q < |pass| ==> tr[i][picks[i]] <= tr[i][q]
  {
    hide Compare, Sign;
    if i > 0 {
      WrapSafe(tr, pass, picks, i - 1);
      assert tr[i] == tr[i - 1][picks[i - 1] := tr[i - 1][picks[i - 1]] + pass[picks[i - 1]]];
    }
    assert InWindow(tr[i]);
    forall p, q | 0 <= p < |pass| && 0 <= q < |pass|
      ensures Compare(tr[i][p] % WRAP, tr[i][q] % WRAP) == Sign(tr[i][p] as int - tr[i][q] as int)
    {
      CompareExact(tr[i][p], tr[i][q]);
    }
    if i < |picks| {
      PickLeast(tr[i], picks[i]);
    }
  }

  function Runs(picks: seq<nat>, p: nat): nat {
    if picks == [] then 0
    else Runs(picks[..|picks| - 1], p) + if picks[|picks| - 1] == p then 1 else 0
  }

  lemma StrideStep(tr: seq<seq<nat>>, pass: seq<nat>, picks: seq<nat>, i: nat, p: nat)
    requires Run(tr, pass, picks) && i < |picks| && p < |pass|
    ensures |tr[i]| == |tr[i + 1]| == |pass|
    ensures tr[i + 1][p] == tr[i][p] + (if picks[i] == p then pass[p] else 0)
    ensures Runs(picks[..i + 1], p) == Runs(picks[..i], p) + (if picks[i] == p then 1 else 0)
  {
    hide Compare;
    assert picks[..i + 1][..i] == picks[..i];
  }

  /** A process's stride is its start plus one pass per run. */
  lemma {:induction false} StrideCountsRuns(tr: seq<seq<nat>>, pass: seq<nat>, picks: seq<nat>, i: nat, p: nat)
    requires Run(tr, pass, picks) && i <= |picks| && p < |pass|
    ensures |tr[i]| == |pass| && tr[i][p] == tr[0][p] + Runs(picks[..i], p) * pass[p]
  {
    if i > 0 {
      hide Run, Runs;
      StrideStep(tr, pass, picks, i - 1, p);
      StrideCountsRuns(tr, pass, picks, i - 1, p);
      OneMore(Runs(picks[..i - 1], p), pass[p]);
    }
  }

  lemma OneMore(n: nat, d: nat)
    ensures (n + 1) * d == n * d + d
  {
  }

  /** From equal starts no process is ever more than one of its own passes ahead. */
  lemma {:induction false} AheadByOnePass(tr: seq<seq<nat>>, pass: seq<nat>, picks: seq<nat>, i: nat, p: nat, q: nat)
    requires Run(tr, pass, picks) && i < |tr| && p < |pass| && q < |pass|
    requires AllEqual(tr[0])
    ensures |tr[i]| == |pass| && tr[i][p] <= tr[i][q] + pass[p]
  {
    hide Compare;
    if i > 0 {
      AheadByOnePass(tr, pass, picks, i - 1, p, q);
      WrapSafe(tr, pass, picks, i - 1);
    }
  }

  /** Fairness: in every run from equal starts the pass-weighted run counts of two
      processes differ by at most the larger pass, hence by at most BIG_STRIDE. */
  lemma Fair(tr: seq<seq<nat>>, pass: seq<nat>, picks: seq<nat>, i: nat, p: nat, q: nat)
    requires Run(tr, pass, picks) && i <= |picks| && p < |pass| && q < |pass|
    requires AllEqual(tr[0])
    ensures -pass[q] <= Runs(picks[..i], p) * pass[p] - Runs(picks[..i], q) * pass[q] <= pass[p]
    ensures pass[p] <= BIG_STRIDE && pass[q] <= BIG_STRIDE
  {
    StrideCountsRuns(tr, pass, picks, i, p);
    StrideCountsRuns(tr, pass, picks, i, q);
    AheadByOnePass(tr, pass, picks, i, p, q);
    AheadByOnePass(tr, pass, picks, i, q, p);
  }

  // ----- shares by priority -----

  /** Priority 0 counts as 1. */
  function Share(priority: nat): (a: nat)
    ensures a > 0
  {
    if priority == 0 then 1 else priority
  }

  /** `m` runs at share `a` are at most one more than in proportion to `n` runs at share `b`, up to what the
      rounding of the pass adds: less than one run in `BIG_STRIDE / a`. */
  ghost predicate AtMostOneAhead(m: nat, a: nat, n: nat, b: nat) {
    (m * b - n * a - b) * BIG_STRIDE <= m * b * (a - 1)
  }

  /** The run counts of two processes are as their priorities. */
  ghost predicate Proportional(m: nat, priority: nat, n: nat, priority': nat) {
    && AtMostOneAhead(m, Share(priority), n, Share(priority'))
    && AtMostOneAhead(n, Share(priority'), m, Share(priority))
  }

  lemma PassOfShare(priority: nat)
    ensures var a, d := Share(priority), Pass(priority);
            a > 0 && BIG_STRIDE - a < a * d <= BIG_STRIDE
  {
    var a, d := Share(priority), Pass(priority);
    assert (d + 1) * a == a * d + a;
  }

  lemma LessTimes(x: int, y: int, k: nat)
    requires x <= y
    ensures k * x <= k * y && x * k <= y * k
  {
  }

  /** From pass-weighted counts to counts. */
  lemma AheadByShare(m: nat, a: nat, d: nat, n: nat, b: nat, e: nat)
    requires a > 0 && b > 0 && BIG_STRIDE - a < a * d <= BIG_STRIDE && b * e <= BIG_STRIDE
    requires m * d - n * e <= d
    ensures AtMostOneAhead(m, a, n, b)
  {
    var x, y := m * b, n * a;
    LessTimes(m * d, n * e + d, a * b);
    assert a * b * (m * d) == x * (a * d);
    assert a * b * (n * e + d) == y * (b * e) + b * (a * d);
    LessTimes(b * e, BIG_STRIDE, y);
    LessTimes(a * d, BIG_STRIDE, b);
    LessTimes(BIG_STRIDE - a + 1, a * d, x);
    assert x * (BIG_STRIDE - a + 1) <= y * BIG_STRIDE + b * BIG_STRIDE;
    assert x * (BIG_STRIDE - a + 1) == x * BIG_STRIDE - x * (a - 1);
    assert (x - y - b) * BIG_STRIDE == x * BIG_STRIDE - y * BIG_STRIDE - b * BIG_STRIDE;
  }

  /** Fairness in priorities: from equal starts a process runs in proportion to its priority, never more than one
      run ahead of another but for the rounding of the passes. */
  lemma FairByPriority(tr: seq<seq<nat>>, priority: seq<nat>, pass: seq<nat>, picks: seq<nat>, i: nat, p: nat, q: nat)
    requires Run(tr, pass, picks) && i <= |picks| && p < |pass| && q < |pass| && AllEqual(tr[0])
    requires |priority| == |pass| && forall j :: 0 <= j < |pass| ==> pass[j] == Pass(priority[j])
    ensures Proportional(Runs(picks[..i], p), priority[p], Runs(picks[..i], q), priority[q])
  {
    hide Compare, Run, Pass, Share, AtMostOneAhead;
    Fair(tr, pass, picks, i, p, q);
    PassOfShare(priority[p]);
    PassOfShare(priority[q]);
    var m, n := Runs(picks[..i], p), Runs(picks[..i], q);
    AheadByShare(m, Share(priority[p]), pass[p], n, Share(priority[q]), pass[q]);
    AheadByShare(n, Share(priority[q]), pass[q], m, Share(priority[p]), pass[p]);
  }

  /** While the runs are few enough that rounding adds up to less than one, it adds nothing. */
  lemma ExactShare(m: nat, a: nat, n: nat, b: nat)
    requires a > 0 && AtMostOneAhead(m, a, n, b) && m * b * (a - 1) < BIG_STRIDE
    ensures m * b <= n * a + b
  {
    var over := m * b - n * a - b;
    assert over >= 1 ==> over * BIG_STRIDE >= BIG_STRIDE;
  }

  // ----- the heap scheduler makes such runs -----

  ghost predicate BalancedAt(picks: seq<nat>, pass: seq<nat>, p: nat, q: nat) {
    p < |pass| && q < |pass| ==> -pass[q] <= Runs(picks, p) * pass[p] - Runs(picks, q) * pass[q] <= pass[p]
  }

  ghost predicate Balanced(picks: seq<nat>, pass: seq<nat>) {
    forall p: nat, q: nat :: BalancedAt(picks, pass, p, q)
  }

  function Members(procs: seq<Proc>): set<Proc> { set p | p in procs }

  ghost predicate Separate(procs: seq<Proc>) {
    forall i, j :: 0 <= i < j < |procs| ==> procs[i] != procs[j]
  }

  ghost function KeysOf(procs: seq<Proc>, key: map<Proc, nat>): seq<nat>
    requires Members(procs) <= key.Keys
  {
    seq(|procs|, i requires 0 <= i < |procs| => assert procs[i] in Members(procs); key[procs[i]])
  }

  ghost function Passes(procs: seq<Proc>): seq<nat>
    reads Members(procs)
  {
    seq(|procs|, i requires 0 <= i < |procs| reads Members(procs) =>
      assert procs[i] in Members(procs); Pass(procs[i].priority))
  }

  ghost function Priorities(procs: seq<Proc>): seq<nat>
    reads Members(procs)
  {
    seq(|procs|, i requires 0 <= i < |procs| reads Members(procs) =>
      assert procs[i] in Members(procs); procs[i].priority)
  }

  /** One more pick makes a longer run. */
  lemma RunGrows(tr: seq<seq<nat>>, pass: seq<nat>, picks: seq<nat>, procs: seq<Proc>, key: map<Proc, nat>,
                 key': map<Proc, nat>, j: nat)
    requires Run(tr, pass, picks) && |pass| == |procs| && Members(procs) <= key.Keys
             && tr[|picks|] == KeysOf(procs, key)
    requires j < |procs| && Separate(procs) && IsLeast(procs[j], Members(procs), key) && Window(Members(procs), key)
    requires key' == key[procs[j] := key[procs[j]] + pass[j]]
    ensures Run(tr + [KeysOf(procs, key')], pass, picks + [j])
  {
    hide Compare;
    var s, s' := KeysOf(procs, key), KeysOf(procs, key');
    forall q | 0 <= q < |pass|
      ensures Compare(s[j] % WRAP, s[q] % WRAP) != 1
    {
      assert procs[q] in Members(procs) && procs[j] in Members(procs);
      CompareInWindow(s[j], s[q]);
    }
    assert s' == s[j := s[j] + pass[j]];
  }

  /** `current` runs and the other processes of `all` are queued, all within a window. */
  ghost predicate Ready(rq: RunQueue, all: set<Proc>, current: Proc, t: Tree, key: map<Proc, nat>)
    reads all, Nodes(t)
  {
    && Valid(rq, t, key, null) && current in all && Nodes(t) == all - {current}
    && Window(all, key) && current.stride == key[current] % WRAP
  }

  /** A run whose picks are the processes `ran`, up to the strides `key`. */
  ghost predicate Told(ran: seq<Proc>, tr: seq<seq<nat>>, pass: seq<nat>, picks: seq<nat>, procs: seq<Proc>,
                       key: map<Proc, nat>) {
    && Run(tr, pass, picks) && Members(procs) <= key.Keys && tr[|picks|] == KeysOf(procs, key)
    && |ran| == |picks| && forall i :: 0 <= i < |ran| ==> picks[i] < |procs| && ran[i] == procs[picks[i]]
  }

  /** One call of `schedule` among the processes of `all`. */
  method Round(rq: RunQueue, ghost all: set<Proc>, current: Proc, ghost t: Tree, ghost key: map<Proc, nat>)
    returns (rq': RunQueue, next: Proc, ghost t': Tree, ghost key': map<Proc, nat>)
    requires Ready(rq, all, current, t, key)
    modifies all
    ensures Ready(rq', all, next, t', key') && forall p :: p in all ==> p.priority == old(p.priority)
    ensures IsLeast(next, all, key) && key' == key[next := key[next] + Pass(next.priority)]
  {
    hide Valid, Pass, Window, Nodes;
    WindowAround(all, key, current);
    assert key[current := key[current]] == key && Nodes(t) + {current} == all;
    rq', next, t', key' := Schedule(rq, current, key[current], t, key);
  }

  lemma ToldMore(ran: seq<Proc>, tr: seq<seq<nat>>, pass: seq<nat>, picks: seq<nat>, procs: seq<Proc>,
                 key: map<Proc, nat>, key': map<Proc, nat>, next: Proc) returns (j: nat)
    requires Told(ran, tr, pass, picks, procs, key) && |pass| == |procs| && Separate(procs)
    requires IsLeast(next, Members(procs), key) && Window(Members(procs), key)
    requires forall i :: 0 <= i < |procs| && procs[i] == next ==> key' == key[next := key[next] + pass[i]]
    ensures j < |procs| && procs[j] == next && Members(procs) <= key'.Keys
    ensures Told(ran + [next], tr + [KeysOf(procs, key')], pass, picks + [j], procs, key')
  {
    j :| j < |procs| && procs[j] == next;
    RunGrows(tr, pass, picks, procs, key, key', j);
  }

  lemma ToldNothing(procs: seq<Proc>, key: map<Proc, nat>, pass: seq<nat>)
    requires Members(procs) <= key.Keys && pass == Passes(procs)
    ensures Told([], [KeysOf(procs, key)], pass, [], procs, key)
  {
  }

  lemma PassesAt(procs: seq<Proc>)
    ensures |Passes(procs)| == |procs| && forall i :: 0 <= i < |procs| ==> procs[i] in Members(procs)
    ensures forall i :: 0 <= i < |procs| ==> Passes(procs)[i] == Pass(procs[i].priority)
  {
  }

  /**
   Calls of `schedule`, `n` in a row, by a fixed set of processes of which `procs[c]` is running.
   The processes that ran, in order, are a run in the sense above, so from equal starts they are
   balanced.
   */
  method Rounds(rq: RunQueue, procs: seq<Proc>, c: nat, n: nat, ghost t: Tree, ghost key: map<Proc, nat>)
    returns (ran: seq<Proc>, ghost tr: seq<seq<nat>>, ghost picks: seq<nat>, ghost key': map<Proc, nat>)
    requires Separate(procs) && c < |procs| && Ready(rq, Members(procs), procs[c], t, key)
    modifies Members(procs)
    ensures |ran| == n && Passes(procs) == old(Passes(procs)) && Priorities(procs) == old(Priorities(procs))
    ensures Told(ran, tr, Passes(procs), picks, procs, key') && tr[0] == KeysOf(procs, key)
    ensures AllEqual(tr[0]) ==> Balanced(picks, Passes(procs))
    ensures AllEqual(tr[0]) ==> RanByPriority(ran, procs)
  {
    hide Valid, Compare, Run, KeysOf, Balanced, Told, Passes, Pass, Ready, RanByPriority, Priorities;
    assert Members(procs) <= key.Keys by {
      ReadyKeys(rq, Members(procs), procs[c], t, key);
    }
    var queue, current := rq, procs[c];
    ghost var tree, all, pass := t, Members(procs), Passes(procs);
    key' := key;
    ran, picks, tr := [], [], [KeysOf(procs, key)];
    PassesAt(procs);
    PrioritiesAt(procs);
    ToldNothing(procs, key, pass);
    var i: nat := 0;
    while i < n
      invariant i <= n && |ran| == i && |tr| > 0 && tr[0] == KeysOf(procs, key)
      invariant forall p :: p in all ==> p.priority == old(p.priority)
      invariant Ready(queue, all, current, tree, key') && Told(ran, tr, pass, picks, procs, key')
    {
      ghost var before := key';
      ReadyKeys(queue, all, current, tree, before);
      queue, current, tree, key' := Round(queue, all, current, tree, before);
      ghost var j := ToldMore(ran, tr, pass, picks, procs, before, key', current);
      ran, tr, picks := ran + [current], tr + [KeysOf(procs, key')], picks + [j];
      i := i + 1;
    }
    ToldRun(ran, tr, pass, picks, procs, key');
    RunFair(tr, pass, picks);
    SamePasses(procs, pass);
    SamePriorities(procs, old(Priorities(procs)));
    if AllEqual(tr[0]) {
      AllByPriority(ran, tr, pass, picks, procs, key');
    }
  }

  /** Every two processes of `procs` have run as their priorities. */
  ghost predicate RanByPriority(ran: seq<Proc>, procs: seq<Proc>)
    reads Members(procs)
  {
    forall p, q :: p in Members(procs) && q in Members(procs) ==>
      Proportional(multiset(ran)[p], p.priority, multiset(ran)[q], q.priority)
  }

  /** The picks count the processes that ran. */
  lemma {:induction false} RunsCount(ran: seq<Proc>, picks: seq<nat>, procs: seq<Proc>, p: nat)
    requires Separate(procs) && p < |procs| && |ran| == |picks|
    requires forall i :: 0 <= i < |ran| ==> picks[i] < |procs| && ran[i] == procs[picks[i]]
    ensures multiset(ran)[procs[p]] == Runs(picks, p)
  {
    if ran != [] {
      var last := |ran| - 1;
      RunsCount(ran[..last], picks[..last], procs, p);
      assert ran == ran[..last] + [ran[last]];
    }
  }

  lemma AllByPriority(ran: seq<Proc>, tr: seq<seq<nat>>, pass: seq<nat>, picks: seq<nat>, procs: seq<Proc>,
                      key: map<Proc, nat>)
    requires Told(ran, tr, pass, picks, procs, key) && Separate(procs) && |pass| == |procs| && AllEqual(tr[0])
    requires forall j :: 0 <= j < |procs| ==> pass[j] == Pass(procs[j].priority)
    ensures RanByPriority(ran, procs)
  {
    hide Compare, Run, Pass, Proportional, KeysOf;
    var priority := Priorities(procs);
    PrioritiesAt(procs);
    forall p, q | p in Members(procs) && q in Members(procs)
      ensures Proportional(multiset(ran)[p], p.priority, multiset(ran)[q], q.priority)
    {
      var i: nat :| i < |procs| && procs[i] == p;
      var j: nat :| j < |procs| && procs[j] == q;
      RunsCount(ran, picks, procs, i);
      RunsCount(ran, picks, procs, j);
      assert picks[..|picks|] == picks;
      FairByPriority(tr, priority, pass, picks, |picks|, i, j);
    }
  }

  lemma PrioritiesAt(procs: seq<Proc>)
    ensures |Priorities(procs)| == |procs| && forall i :: 0 <= i < |procs| ==> procs[i] in Members(procs)
    ensures forall i :: 0 <= i < |procs| ==> Priorities(procs)[i] == procs[i].priority
  {
  }

  lemma SamePriorities(procs: seq<Proc>, priority: seq<nat>)
    requires |priority| == |procs| && forall j :: 0 <= j < |procs| ==> priority[j] == procs[j].priority
    ensures Priorities(procs) == priority
  {
  }

  lemma ReadyKeys(rq: RunQueue, all: set<Proc>, current: Proc, t: Tree, key: map<Proc, nat>)
    requires Ready(rq, all, current, t, key)
    ensures all <= key.Keys && Window(all, key)
  {
  }

  lemma ToldRun(ran: seq<Proc>, tr: seq<seq<nat>>, pass: seq<nat>, picks: seq<nat>, procs: seq<Proc>,
                key: map<Proc, nat>)
    requires Told(ran, tr, pass, picks, procs, key)
    ensures Run(tr, pass, picks)
  {
  }

  lemma SamePasses(procs: seq<Proc>, pass: seq<nat>)
    requires |pass| == |procs| && forall j :: 0 <= j < |procs| ==> pass[j] == Pass(procs[j].priority)
    ensures Passes(procs) == pass
  {
  }

  lemma WindowAround(S: set<Proc>, key: map<Proc, nat>, p: Proc)
    requires Window(S, key) && p in S
    ensures forall q :: q in S ==> q in key && -BIG_STRIDE <= key[q] - key[p] <= BIG_STRIDE
  {
  }

  ghost predicate AllEqual(s: seq<nat>) {
    forall a, b :: 0 <= a < |s| && 0 <= b < |s| ==> s[a] == s[b]
  }

  lemma RunFair(tr: seq<seq<nat>>, pass: seq<nat>, picks: seq<nat>)
    requires Run(tr, pass, picks)
    ensures AllEqual(tr[0]) ==> Balanced(picks, pass)
  {
    hide Compare;
    if AllEqual(tr[0]) {
      forall p: nat, q: nat
        ensures BalancedAt(picks, pass, p, q)
      {
        if p < |pass| && q < |pass| {
          Fair(tr, pass, picks, |picks|, p, q);
          assert picks[..|picks|] == picks;
        }
      }
    }
  }
}
