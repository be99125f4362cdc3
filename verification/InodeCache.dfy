/**
 The in-memory inode cache of SFS and its reclaim race, as an interleaving of
 threads that look inodes up, take and drop references, and reclaim.

 Disk reads and write-backs happen while the file-system lock is held and may
 block, so each is a step of its own; they may also fail.
 */
module InodeCache {

  datatype Status = Cached | Dying | Freed   // linked; unlinked, not yet killed; killed

  datatype Node = Node(ino: nat, refs: nat, reclaim: int, status: Status)

  datatype Pc =
    | Idle
    | Looking(ino: nat)        // sfs_load_inode, lock held, before the hash lookup
    | Loading(ino: nat)        // missed; reading the disk inode, lock held
    | Reclaiming(n: nat)       // called vop_reclaim, lock not yet held
    | Deciding(n: nat)         // sfs_reclaim, lock held, before the decrement
    | Flushing(n: nat)         // decided to free; writing back, lock held
    | Killing(n: nat)          // unlinked, lock released, about to free the memory

  datatype Lock = Unlocked | LockedBy(t: nat)

  datatype State = State(nodes: seq<Node>, pcs: seq<Pc>, lock: Lock)

  datatype Action =
    | Load(ino: nat) | Lookup | ReadInode(ok: bool)
    | Inc(n: nat) | Drop(n: nat)
    | LockForReclaim | Decide | Flush(ok: bool) | Kill

  function Init(threads: nat): (s: State) {
    State([], seq(threads, _ => Idle), Unlocked)
  }

  predicate Holds(pc: Pc) {
    pc.Looking? || pc.Loading? || pc.Deciding? || pc.Flushing?
  }

  predicate IsCached(s: State, n: nat, ino: nat) {
    n < |s.nodes| && s.nodes[n].ino == ino && s.nodes[n].status.Cached?
  }

  predicate Enabled(s: State, t: nat, a: Action) {
    t < |s.pcs| &&
    match a
    case Load(_) => s.pcs[t].Idle? && s.lock.Unlocked?
    case Lookup => s.pcs[t].Looking?
    case ReadInode(_) => s.pcs[t].Loading?
    case Inc(n) => s.pcs[t].Idle? && n < |s.nodes| && s.nodes[n].refs > 0
    case Drop(n) => s.pcs[t].Idle? && n < |s.nodes| && s.nodes[n].refs > 0
    case LockForReclaim => s.pcs[t].Reclaiming? && s.lock.Unlocked?
    case Decide => s.pcs[t].Deciding? && s.pcs[t].n < |s.nodes|
    case Flush(_) => s.pcs[t].Flushing? && s.pcs[t].n < |s.nodes|
    case Kill => s.pcs[t].Killing? && s.pcs[t].n < |s.nodes|
  }

  function Unlock(s: State, t: nat): State
    requires t < |s.pcs|
  {
    s.(pcs := s.pcs[t := Idle], lock := Unlocked)
  }

  /** The scan of the hash list. */
  function Find(nodes: seq<Node>, ino: nat): (r: int)
    ensures r >= 0 ==> r < |nodes| && nodes[r].ino == ino && nodes[r].status.Cached?
    ensures r < 0 ==> forall n :: 0 <= n < |nodes| ==> !(nodes[n].ino == ino && nodes[n].status.Cached?)
  {
    if nodes == [] then -1
    else
      var last := |nodes| - 1;
      if nodes[last].ino == ino && nodes[last].status.Cached? then last else Find(nodes[..last], ino)
  }

  function Step(s: State, t: nat, a: Action): (r: State)
    requires Enabled(s, t, a)
  {
    match a
    case Load(ino) => s.(pcs := s.pcs[t := Looking(ino)], lock := LockedBy(t))
    case Lookup =>
      var n := Find(s.nodes, s.pcs[t].ino);
      if n < 0 then s.(pcs := s.pcs[t := Loading(s.pcs[t].ino)])
      else
        var node := s.nodes[n];
        var found := node.(refs := node.refs + 1, reclaim := node.reclaim + if node.refs + 1 == 1 then 1 else 0);
        Unlock(s.(nodes := s.nodes[n := found]), t)
    case ReadInode(ok) =>
      Unlock(if ok then s.(nodes := s.nodes + [Node(s.pcs[t].ino, 1, 1, Cached)]) else s, t)
    case Inc(n) => s.(nodes := s.nodes[n := s.nodes[n].(refs := s.nodes[n].refs + 1)])
    case Drop(n) =>
      s.(nodes := s.nodes[n := s.nodes[n].(refs := s.nodes[n].refs - 1)],
         pcs := if s.nodes[n].refs == 1 then s.pcs[t := Reclaiming(n)] else s.pcs)
    case LockForReclaim => s.(pcs := s.pcs[t := Deciding(s.pcs[t].n)], lock := LockedBy(t))
    case Decide =>
      var n := s.pcs[t].n;
      var r := s.(nodes := s.nodes[n := s.nodes[n].(reclaim := s.nodes[n].reclaim - 1)]);
      if r.nodes[n].reclaim != 0 || r.nodes[n].refs != 0 then Unlock(r, t)
      else r.(pcs := s.pcs[t := Flushing(n)])
    case Flush(ok) =>
      if !ok then Unlock(s, t)
      else
        var n := s.pcs[t].n;
        s.(nodes := s.nodes[n := s.nodes[n].(status := Dying)], pcs := s.pcs[t := Killing(n)], lock := Unlocked)
    case Kill =>
      var n := s.pcs[t].n;
      s.(nodes := s.nodes[n := s.nodes[n].(status := Freed)], pcs := s.pcs[t := Idle])
  }

  // ----- the invariant -----

  predicate IsPending(pc: Pc, n: nat) {
    pc == Reclaiming(n) || pc == Deciding(n)
  }

  /** The reclaim calls on `n` that have not yet decremented its reclaim count. */
  function Pending(pcs: seq<Pc>, n: nat): set<nat> {
    set t | 0 <= t < |pcs| && IsPending(pcs[t], n)
  }

  ghost predicate LockOk(s: State) {
    && (forall t: nat :: t < |s.pcs| ==> (Holds(s.pcs[t]) <==> s.lock == LockedBy(t)))
    && (s.lock.LockedBy? ==> s.lock.t < |s.pcs|)
  }

  /** A thread about to free a node is the only one that can reach it. */
  ghost predicate PcOk(s: State, t: nat)
    requires t < |s.pcs|
  {
    match s.pcs[t]
    case Idle => true
    case Looking(_) => true
    case Loading(ino) => forall n: nat :: !IsCached(s, n, ino)
    case Reclaiming(n) => n < |s.nodes| && s.nodes[n].status.Cached?
    case Deciding(n) => n < |s.nodes| && s.nodes[n].status.Cached?
    case Flushing(n) => n < |s.nodes| && s.nodes[n].status.Cached? && s.nodes[n].refs == 0 && s.nodes[n].reclaim == 0
    case Killing(n) => n < |s.nodes| && s.nodes[n].status.Dying?
  }

  function One(b: bool): int {
    if b then 1 else 0
  }

  ghost predicate NodeOk(s: State, n: nat)
    requires n < |s.nodes|
  {
    var node := s.nodes[n];
    && node.reclaim == One(node.refs > 0) + |Pending(s.pcs, n)|
    && (!node.status.Cached? ==> node.refs == 0 && node.reclaim == 0)
    && (node.status.Dying? ==> exists t: nat :: t < |s.pcs| && s.pcs[t] == Killing(n))
  }

  /** At most one cached inode per block number, and one killer per dying inode. */
  ghost predicate Unique(s: State) {
    && (forall m: nat, n: nat :: m < n < |s.nodes| && s.nodes[m].status.Cached? && s.nodes[n].status.Cached? ==>
          s.nodes[m].ino != s.nodes[n].ino)
    && (forall t: nat, u: nat :: t < u < |s.pcs| && s.pcs[t].Killing? ==> s.pcs[t] != s.pcs[u])
  }

  ghost predicate Inv(s: State) {
    && LockOk(s) && Unique(s)
    && (forall t: nat :: t < |s.pcs| ==> PcOk(s, t))
    && (forall n: nat :: n < |s.nodes| ==> NodeOk(s, n))
  }

  // ----- every step keeps it -----

  lemma PendingMove(pcs: seq<Pc>, t: nat, pc: Pc, n: nat)
    requires t < |pcs|
    ensures |Pending(pcs[t := pc], n)| == |Pending(pcs, n)| + One(IsPending(pc, n)) - One(IsPending(pcs[t], n))
  {
    hide IsPending;
    var P := Pending(pcs, n);
    assert Pending(pcs[t := pc], n) == if IsPending(pc, n) then P + {t} else P - {t};
    assert t in P <==> IsPending(pcs[t], n);
    SizeAfter(P, t, IsPending(pc, n));
  }

  lemma SizeAfter(P: set<nat>, t: nat, add: bool)
    ensures |if add then P + {t} else P - {t}| == |P| + One(add) - One(t in P)
  {
    assert t in P ==> P + {t} == P;
    assert t !in P ==> P - {t} == P;
  }

  lemma StepKeepsLock(s: State, t: nat, a: Action)
    requires LockOk(s) && Enabled(s, t, a)
    ensures LockOk(Step(s, t, a))
  {
  }

  /** Only a completed load puts an inode into the cache. */
  lemma NewlyCached(s: State, t: nat, a: Action, n: nat, ino: nat)
    requires Enabled(s, t, a) && IsCached(Step(s, t, a), n, ino)
    ensures IsCached(s, n, ino) || (a == ReadInode(true) && n == |s.nodes| && s.pcs[t].ino == ino)
  {
  }

  lemma StepKeepsUniqueNodes(s: State, t: nat, a: Action, m: nat, n: nat)
    requires Inv(s) && Enabled(s, t, a)
    requires m < n < |Step(s, t, a).nodes|
    requires Step(s, t, a).nodes[m].status.Cached? && Step(s, t, a).nodes[n].status.Cached?
    ensures Step(s, t, a).nodes[m].ino != Step(s, t, a).nodes[n].ino
  {
    var r := Step(s, t, a);
    assert PcOk(s, t);
    NewlyCached(s, t, a, m, r.nodes[m].ino);
    NewlyCached(s, t, a, n, r.nodes[n].ino);
    if n == |s.nodes| {
      assert !IsCached(s, m, s.pcs[t].ino);
    }
  }

  lemma StepKeepsUnique(s: State, t: nat, a: Action)
    requires Inv(s) && Enabled(s, t, a)
    ensures Unique(Step(s, t, a))
  {
    var r := Step(s, t, a);
    forall m: nat, n: nat | m < n < |r.nodes| && r.nodes[m].status.Cached? && r.nodes[n].status.Cached?
      ensures r.nodes[m].ino != r.nodes[n].ino
    {
      StepKeepsUniqueNodes(s, t, a, m, n);
    }
    assert PcOk(s, t);
    if a.Flush? {
      forall u: nat | u < |s.pcs| && u != t
        ensures s.pcs[u] != Killing(s.pcs[t].n)
      {
        assert PcOk(s, u);
      }
    }
  }

  /** A node with no reclaim count left has no reclaim call pending. */
  lemma NonePending(s: State, n: nat, u: nat)
    requires Inv(s) && n < |s.nodes| && s.nodes[n].reclaim == 0 && u < |s.pcs|
    ensures !IsPending(s.pcs[u], n)
  {
    assert NodeOk(s, n);
    assert IsPending(s.pcs[u], n) ==> u in Pending(s.pcs, n);
  }

  lemma StepKeepsOtherPc(s: State, t: nat, a: Action, u: nat)
    requires Inv(s) && Enabled(s, t, a) && u < |s.pcs| && u != t
    ensures PcOk(Step(s, t, a), u)
  {
    var r := Step(s, t, a);
    assert PcOk(s, t) && PcOk(s, u);
    match s.pcs[u] {
      case Loading(ino) =>
        forall n: nat
          ensures !IsCached(r, n, ino)
        {
          if IsCached(r, n, ino) {
            NewlyCached(s, t, a, n, ino);
          }
        }
      case Killing(n) => assert NodeOk(s, n);
      case Reclaiming(n) => if s.pcs[t] == Flushing(n) { NonePending(s, n, u); }
      case _ =>
    }
  }

  lemma StepKeepsOwnPc(s: State, t: nat, a: Action)
    requires Inv(s) && Enabled(s, t, a)
    ensures PcOk(Step(s, t, a), t)
  {
    assert PcOk(s, t);
    match a {
      case Drop(n) => assert NodeOk(s, n);
      case Lookup => assert forall n: nat :: Find(s.nodes, s.pcs[t].ino) < 0 ==> !IsCached(s, n, s.pcs[t].ino);
      case _ =>
    }
  }

  lemma StepKeepsNode(s: State, t: nat, a: Action, n: nat)
    requires Inv(s) && Enabled(s, t, a) && n < |Step(s, t, a).nodes|
    ensures NodeOk(Step(s, t, a), n)
  {
    var r := Step(s, t, a);
    assert PcOk(s, t);
    PendingMove(s.pcs, t, r.pcs[t], n);
    assert r.pcs == s.pcs[t := r.pcs[t]];
    if n < |s.nodes| {
      assert NodeOk(s, n);
      if r.nodes[n].status.Dying? {
        if s.nodes[n].status.Dying? {
          var u: nat :| u < |s.pcs| && s.pcs[u] == Killing(n);
          assert r.pcs[u] == Killing(n);
        } else {
          assert r.pcs[t] == Killing(n);
        }
      }
    } else {
      NewNodeUnreferenced(s, n);
    }
  }

  lemma NewNodeUnreferenced(s: State, n: nat)
    requires Inv(s) && n >= |s.nodes|
    ensures Pending(s.pcs, n) == {}
  {
    forall u: nat | u < |s.pcs|
      ensures !IsPending(s.pcs[u], n)
    {
      assert PcOk(s, u);
    }
  }

  lemma StepKeeps(s: State, t: nat, a: Action)
    requires Inv(s) && Enabled(s, t, a)
    ensures Inv(Step(s, t, a))
  {
    var r := Step(s, t, a);
    StepKeepsLock(s, t, a);
    StepKeepsUnique(s, t, a);
    forall u: nat | u < |r.pcs|
      ensures PcOk(r, u)
    {
      if u == t { StepKeepsOwnPc(s, t, a); } else { StepKeepsOtherPc(s, t, a, u); }
    }
    forall n: nat | n < |r.nodes|
      ensures NodeOk(r, n)
    {
      StepKeepsNode(s, t, a, n);
    }
  }

  /** The reclaim that frees the inode is the last one pending, and nobody holds a reference. */
  lemma LastReclaimFrees(s: State, t: nat)
    requires Inv(s) && Enabled(s, t, Decide)
    ensures var n := s.pcs[t].n;
            Step(s, t, Decide).pcs[t] == Flushing(n) <==> s.nodes[n].refs == 0 && Pending(s.pcs, n) == {t}
  {
    var n := s.pcs[t].n;
    assert NodeOk(s, n);
    assert t in Pending(s.pcs, n);
    if |Pending(s.pcs, n)| == 1 {
      assert Pending(s.pcs, n) == {t} + (Pending(s.pcs, n) - {t});
    }
  }

  /** No other thread is about to touch node `n`. */
  ghost predicate OutOfReach(s: State, t: nat, n: nat) {
    forall u: nat :: u < |s.pcs| && u != t ==>
          !IsPending(s.pcs[u], n) && s.pcs[u] != Flushing(n) && s.pcs[u] != Killing(n)
  }

  /** An inode is freed unlinked, unreferenced and out of every other thread's reach. */
  lemma KillIsSafe(s: State, t: nat)
    requires Inv(s) && Enabled(s, t, Kill)
    ensures var n := s.pcs[t].n; s.nodes[n].status.Dying? && s.nodes[n].refs == 0 && OutOfReach(s, t, n)
  {
    var n := s.pcs[t].n;
    assert PcOk(s, t) && NodeOk(s, n);
    forall u: nat | u < |s.pcs| && u != t
      ensures !IsPending(s.pcs[u], n) && s.pcs[u] != Flushing(n) && s.pcs[u] != Killing(n)
    {
      NonePending(s, n, u);
      assert PcOk(s, u);
    }
  }

  /** Every cached inode nobody references has somebody on the way to reclaim it. */
  ghost predicate NoLeak(s: State) {
    forall n: nat :: n < |s.nodes| && s.nodes[n].status.Cached? && s.nodes[n].refs == 0 ==>
      Pending(s.pcs, n) != {} || exists t: nat :: t < |s.pcs| && s.pcs[t] == Flushing(n)
  }

  lemma StepKeepsNoLeak(s: State, t: nat, a: Action)
    requires Inv(s) && Enabled(s, t, a) && NoLeak(s) && a != Flush(false)
    ensures NoLeak(Step(s, t, a))
  {
    var r := Step(s, t, a);
    StepKeeps(s, t, a);
    forall n: nat | n < |r.nodes| && r.nodes[n].status.Cached? && r.nodes[n].refs == 0
      ensures Pending(r.pcs, n) != {} || exists u: nat :: u < |r.pcs| && r.pcs[u] == Flushing(n)
    {
      assert NodeOk(r, n) && NodeOk(s, n) && PcOk(s, t);
      if r.nodes[n].reclaim == 0 {
        if s.pcs[t].Deciding? && s.pcs[t].n == n {
          assert r.pcs[t] == Flushing(n);
        } else {
          assert Pending(s.pcs, n) == {};
          var u: nat :| u < |s.pcs| && s.pcs[u] == Flushing(n);
          assert u == t ==> a == Flush(true);
          assert r.pcs[u] == Flushing(n);
        }
      }
    }
  }

  // ----- whole runs -----

  datatype Move = Move(t: nat, a: Action)

  ghost predicate Run(threads: nat, tr: seq<State>, moves: seq<Move>) {
    && |tr| == |moves| + 1 && tr[0] == Init(threads)
    && forall i :: 0 <= i < |moves| ==>
         Enabled(tr[i], moves[i].t, moves[i].a) && tr[i + 1] == Step(tr[i], moves[i].t, moves[i].a)
  }

  lemma {:induction false} RunInv(threads: nat, tr: seq<State>, moves: seq<Move>, i: nat)
    requires Run(threads, tr, moves) && i < |tr|
    ensures Inv(tr[i])
  {
    if i > 0 {
      RunInv(threads, tr, moves, i - 1);
      StepKeeps(tr[i - 1], moves[i - 1].t, moves[i - 1].a);
    }
  }

  /** In every run the reclaim count is exact and a block number is cached at most once. */
  lemma ReclaimCountExact(threads: nat, tr: seq<State>, moves: seq<Move>, i: nat, n: nat)
    requires Run(threads, tr, moves) && i < |tr| && n < |tr[i].nodes|
    ensures tr[i].nodes[n].reclaim == One(tr[i].nodes[n].refs > 0) + |Pending(tr[i].pcs, n)|
    ensures forall m: nat ::
              m < |tr[i].nodes| && m != n && tr[i].nodes[n].status.Cached? && tr[i].nodes[m].status.Cached? ==>
                tr[i].nodes[m].ino != tr[i].nodes[n].ino
  {
    RunInv(threads, tr, moves, i);
    assert NodeOk(tr[i], n);
  }

  // ----- every thread runs its code in order -----

  /** Between its calls a thread may load any inode, and take or drop references. */
  predicate Free(b: Action) {
    b.Load? || b.Inc? || b.Drop?
  }

  /** What the code does after `a`; `found` says how the test in it came out. */
  predicate MayFollow(a: Action, found: bool, b: Action) {
    match a
    case Load(_) => b.Lookup?
    case Lookup => if found then Free(b) else b.ReadInode?
    case ReadInode(_) => Free(b)
    case Inc(_) => Free(b)
    case Drop(_) => if found then b.LockForReclaim? else Free(b)
    case LockForReclaim => b.Decide?
    case Decide => if found then b.Flush? else Free(b)
    case Flush(ok) => if ok then b.Kill? else Free(b)
    case Kill => Free(b)
  }

  /** The inode looked for is cached; the reference dropped is the last; the reclaim at hand is the last one
      pending for an inode without references. */
  ghost predicate Found(s: State, t: nat, a: Action)
    requires Enabled(s, t, a)
  {
    match a
    case Lookup => exists n: nat :: IsCached(s, n, s.pcs[t].ino)
    case Drop(n) => s.nodes[n].refs == 1
    case Decide => s.nodes[s.pcs[t].n].refs == 0 && Pending(s.pcs, s.pcs[t].n) == {t}
    case _ => false
  }

  /** What the lock and the reference counts allow. */
  predicate Allowed(s: State, b: Action) {
    && (b.Load? || b.LockForReclaim? ==> s.lock.Unlocked?)
    && (b.Inc? || b.Drop? ==> b.n < |s.nodes| && s.nodes[b.n].refs > 0)
  }

  /** After a step its thread may do exactly what comes next in the code, as far as lock and references allow. */
  lemma CodeInOrder(s: State, t: nat, a: Action, b: Action)
    requires Inv(s) && Enabled(s, t, a)
    ensures var r := Step(s, t, a);
            Enabled(r, t, b) <==> MayFollow(a, Found(s, t, a), b) && Allowed(r, b)
  {
    hide LockOk, Unique, NodeOk;
    StepKeepsOwnPc(s, t, a);
    if a.Decide? {
      LastReclaimFrees(s, t);
    }
    if a.Lookup? {
      var n := Find(s.nodes, s.pcs[t].ino);
      assert n >= 0 ==> IsCached(s, n, s.pcs[t].ino);
    }
  }

  /** Nobody else is moved by it. */
  lemma OthersInOrder(s: State, t: nat, a: Action, u: nat)
    requires Enabled(s, t, a) && u < |s.pcs| && u != t
    ensures Step(s, t, a).pcs[u] == s.pcs[u]
  {
  }

  // ----- who holds the references -----

  /** What thread `t` gains of node `n` by a step: a finished load of its block number or an Inc gives it one
      reference, a Drop takes one. */
  ghost function Gain(s: State, t: nat, a: Action, n: nat): int
    requires t < |s.pcs|
  {
    match a
    case Lookup => One(s.pcs[t].Looking? && IsCached(s, n, s.pcs[t].ino))
    case ReadInode(ok) => One(ok && n == |s.nodes|)
    case Inc(m) => One(n == m)
    case Drop(m) => -One(n == m)
    case _ => 0
  }

  /** The references to `n` that thread `t` has been given and has not dropped, after the first `i` moves. */
  ghost function Held(threads: nat, tr: seq<State>, moves: seq<Move>, i: nat, t: nat, n: nat): int
    requires Run(threads, tr, moves) && i < |tr|
  {
    if i == 0 then 0
    else Held(threads, tr, moves, i - 1, t, n)
         + if moves[i - 1].t == t then Gain(tr[i - 1], t, moves[i - 1].a, n) else 0
  }

  /** Those of the threads below `k` together. */
  ghost function HeldBelow(threads: nat, tr: seq<State>, moves: seq<Move>, i: nat, k: nat, n: nat): int
    requires Run(threads, tr, moves) && i < |tr|
  {
    if k == 0 then 0
    else HeldBelow(threads, tr, moves, i, k - 1, n) + Held(threads, tr, moves, i, k - 1, n)
  }

  /** Every step changes the reference count of every node by what its thread gains. */
  lemma StepGains(s: State, t: nat, a: Action, n: nat)
    requires Inv(s) && Enabled(s, t, a)
    ensures |Step(s, t, a).pcs| == |s.pcs| && |s.nodes| <= |Step(s, t, a).nodes|
    ensures RefsOf(Step(s, t, a), n) == RefsOf(s, n) + Gain(s, t, a, n)
  {
    hide LockOk, PcOk, NodeOk;
    if a.Lookup? && IsCached(s, n, s.pcs[t].ino) {
      var m := Find(s.nodes, s.pcs[t].ino);
      assert IsCached(s, m, s.pcs[t].ino);
    }
  }

  /** A node that does not exist yet has no references. */
  function RefsOf(s: State, n: nat): nat {
    if n < |s.nodes| then s.nodes[n].refs else 0
  }

  lemma {:induction false} HeldStep(threads: nat, tr: seq<State>, moves: seq<Move>, i: nat, k: nat, n: nat)
    requires Run(threads, tr, moves) && i < |moves|
    ensures HeldBelow(threads, tr, moves, i + 1, k, n) == HeldBelow(threads, tr, moves, i, k, n)
              + if moves[i].t < k then Gain(tr[i], moves[i].t, moves[i].a, n) else 0
  {
    if k > 0 {
      hide Run, Gain;
      HeldStep(threads, tr, moves, i, k - 1, n);
    }
  }

  lemma {:induction false} NothingHeld(threads: nat, tr: seq<State>, moves: seq<Move>, k: nat, n: nat)
    requires Run(threads, tr, moves)
    ensures HeldBelow(threads, tr, moves, 0, k, n) == 0
  {
    if k > 0 {
      NothingHeld(threads, tr, moves, k - 1, n);
    }
  }

  /** In every state of every run the reference count is the number of references the threads hold. */
  lemma {:induction false} RefsAreHeld(threads: nat, tr: seq<State>, moves: seq<Move>, i: nat, n: nat)
    requires Run(threads, tr, moves) && i < |tr|
    ensures |tr[i].pcs| == threads && RefsOf(tr[i], n) == HeldBelow(threads, tr, moves, i, threads, n)
  {
    if i == 0 {
      NothingHeld(threads, tr, moves, threads, n);
    } else {
      RefsAreHeld(threads, tr, moves, i - 1, n);
      RunInv(threads, tr, moves, i - 1);
      StepGains(tr[i - 1], moves[i - 1].t, moves[i - 1].a, n);
      HeldStep(threads, tr, moves, i - 1, threads, n);
    }
  }

  /** No thread has dropped more references to `n` than it was given. */
  ghost predicate Honest(threads: nat, tr: seq<State>, moves: seq<Move>, i: nat, n: nat)
    requires Run(threads, tr, moves) && i < |tr|
  {
    forall t: nat :: t < threads ==> Held(threads, tr, moves, i, t, n) >= 0
  }

  /** Threads that drop only what they hold stay honest. */
  lemma {:induction false} HonestRun(threads: nat, tr: seq<State>, moves: seq<Move>, i: nat, n: nat)
    requires Run(threads, tr, moves) && i < |tr|
    requires forall k: nat :: k < i && moves[k].a == Drop(n) ==> Held(threads, tr, moves, k, moves[k].t, n) > 0
    ensures Honest(threads, tr, moves, i, n)
  {
    if i > 0 {
      HonestRun(threads, tr, moves, i - 1, n);
      var k := i - 1;
      assert moves[k].a == Drop(n) ==> Held(threads, tr, moves, k, moves[k].t, n) > 0;
      forall t: nat | t < threads
        ensures Held(threads, tr, moves, i, t, n) >= 0
      {
        assert Held(threads, tr, moves, k, t, n) >= 0;
      }
    }
  }

  /** The block number thread `t` asked for last. */
  function Wanted(moves: seq<Move>, i: nat, t: nat): nat
    requires i <= |moves|
  {
    if i == 0 then 0
    else if moves[i - 1].t == t && moves[i - 1].a.Load? then moves[i - 1].a.ino
    else Wanted(moves, i - 1, t)
  }

  lemma {:induction false} LooksForWanted(threads: nat, tr: seq<State>, moves: seq<Move>, i: nat, t: nat)
    requires Run(threads, tr, moves) && i < |tr|
    ensures |tr[i].pcs| == threads
    ensures t < threads && (tr[i].pcs[t].Looking? || tr[i].pcs[t].Loading?) ==>
              tr[i].pcs[t].ino == Wanted(moves, i, t)
  {
    if i > 0 {
      LooksForWanted(threads, tr, moves, i - 1, t);
    }
  }

  /** A load that finishes gives its thread a reference to a cached inode of the number it asked for, and to no
      other one. */
  lemma LoadGivesWanted(threads: nat, tr: seq<State>, moves: seq<Move>, i: nat)
    requires Run(threads, tr, moves) && i < |moves|
    ensures var t, a := moves[i].t, moves[i].a;
            && t < |tr[i].pcs|
            && (a.Lookup? || a.ReadInode? ==> forall n: nat :: Gain(tr[i], t, a, n) > 0 ==>
                  IsCached(tr[i + 1], n, Wanted(moves, i, t)))
            && (a == ReadInode(true) || (a.Lookup? && tr[i + 1].pcs[t].Idle?) ==>
                  exists n: nat :: n < |tr[i + 1].nodes| && Gain(tr[i], t, a, n) == 1)
  {
    var t, a := moves[i].t, moves[i].a;
    LooksForWanted(threads, tr, moves, i, t);
    RunInv(threads, tr, moves, i);
    hide LockOk, PcOk, NodeOk;
    if a == ReadInode(true) {
      assert Gain(tr[i], t, a, |tr[i].nodes|) == 1;
    } else if a.Lookup? {
      var m := Find(tr[i].nodes, tr[i].pcs[t].ino);
      assert m >= 0 ==> IsCached(tr[i], m, tr[i].pcs[t].ino) && Gain(tr[i], t, a, m) == 1;
    }
  }

  lemma {:induction false} OneOfAll(threads: nat, tr: seq<State>, moves: seq<Move>, i: nat, k: nat, t: nat, n: nat)
    requires Run(threads, tr, moves) && i < |tr| && t < k <= threads && Honest(threads, tr, moves, i, n)
    ensures HeldBelow(threads, tr, moves, i, k, n) >= Held(threads, tr, moves, i, t, n)
  {
    hide Run, Held;
    if t < k - 1 {
      OneOfAll(threads, tr, moves, i, k - 1, t, n);
    } else {
      NoneOwed(threads, tr, moves, i, k - 1, n);
    }
  }

  lemma {:induction false} NoneOwed(threads: nat, tr: seq<State>, moves: seq<Move>, i: nat, k: nat, n: nat)
    requires Run(threads, tr, moves) && i < |tr| && k <= threads && Honest(threads, tr, moves, i, n)
    ensures HeldBelow(threads, tr, moves, i, k, n) >= 0
  {
    hide Run, Held;
    if k > 0 {
      NoneOwed(threads, tr, moves, i, k - 1, n);
    }
  }

  /** An inode on its way out, or freed, is held by nobody; an inode that a thread holds is in the cache. */
  lemma DeadUnheld(threads: nat, tr: seq<State>, moves: seq<Move>, i: nat, n: nat)
    requires Run(threads, tr, moves) && i < |tr| && n < |tr[i].nodes|
    ensures !tr[i].nodes[n].status.Cached? ==> HeldBelow(threads, tr, moves, i, threads, n) == 0
    ensures Honest(threads, tr, moves, i, n) && !tr[i].nodes[n].status.Cached? ==>
              forall t: nat :: t < threads ==> Held(threads, tr, moves, i, t, n) == 0
    ensures Honest(threads, tr, moves, i, n) ==>
              forall t: nat :: t < threads && Held(threads, tr, moves, i, t, n) > 0 ==> tr[i].nodes[n].status.Cached?
  {
    hide LockOk, Unique, PcOk, Held, HeldBelow;
    RunInv(threads, tr, moves, i);
    RefsAreHeld(threads, tr, moves, i, n);
    assert NodeOk(tr[i], n);
    if Honest(threads, tr, moves, i, n) {
      forall t: nat | t < threads
        ensures HeldBelow(threads, tr, moves, i, threads, n) >= Held(threads, tr, moves, i, t, n)
      {
        OneOfAll(threads, tr, moves, i, threads, t, n);
      }
    }
  }

  lemma FreedStays(s: State, t: nat, a: Action, n: nat)
    requires Inv(s) && Enabled(s, t, a) && n < |s.nodes| && s.nodes[n].status.Freed?
    ensures n < |Step(s, t, a).nodes| && Step(s, t, a).nodes[n].status.Freed?
  {
    assert PcOk(s, t);
  }

  /** Freed memory stays freed and is never referenced again. */
  lemma {:induction false} FreedForGood(threads: nat, tr: seq<State>, moves: seq<Move>, i: nat, j: nat, n: nat)
    requires Run(threads, tr, moves) && i <= j < |tr| && n < |tr[i].nodes| && tr[i].nodes[n].status.Freed?
    ensures n < |tr[j].nodes| && tr[j].nodes[n].status.Freed? && tr[j].nodes[n].refs == 0
  {
    hide LockOk, Unique, PcOk;
    if i < j {
      FreedForGood(threads, tr, moves, i, j - 1, n);
      RunInv(threads, tr, moves, j - 1);
      FreedStays(tr[j - 1], moves[j - 1].t, moves[j - 1].a, n);
    }
    RunInv(threads, tr, moves, j);
    assert NodeOk(tr[j], n);
  }

  /** No inode is freed twice in a run. */
  lemma FreedOnce(threads: nat, tr: seq<State>, moves: seq<Move>, i: nat, j: nat)
    requires Run(threads, tr, moves) && i < j < |moves| && moves[i].a.Kill? && moves[j].a.Kill?
    ensures tr[i].pcs[moves[i].t].n != tr[j].pcs[moves[j].t].n
  {
    var n := tr[i].pcs[moves[i].t].n;
    FreedForGood(threads, tr, moves, i + 1, j, n);
    RunInv(threads, tr, moves, j);
    KillIsSafe(tr[j], moves[j].t);
  }

  /** While write-backs succeed, no unreferenced inode is left behind in the cache. */
  lemma {:induction false} NothingLeaks(threads: nat, tr: seq<State>, moves: seq<Move>, i: nat)
    requires Run(threads, tr, moves) && i < |tr|
    requires forall k :: 0 <= k < |moves| ==> moves[k].a != Flush(false)
    ensures NoLeak(tr[i])
  {
    if i > 0 {
      NothingLeaks(threads, tr, moves, i - 1);
      RunInv(threads, tr, moves, i - 1);
      StepKeepsNoLeak(tr[i - 1], moves[i - 1].t, moves[i - 1].a);
    }
  }
}
