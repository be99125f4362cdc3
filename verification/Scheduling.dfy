/**
 The scheduler and the kernel semaphores over whole runs: round-robin run queue, the state
 and wait state of every process, and the wait queue of every semaphore.  Kernel code runs
 unpreempted between calls of `schedule`, so each action is one step; between any two of them an
 interrupt handler may fire any pending timer or wake an interruptible sleeper.
 */
module Scheduling {
  import opened Semaphores

  const IDLE: nat := 0

  datatype Status = Runnable | Sleeping | Zombie

  /** `wait_state`: `Interruptible` stands for a child, a timer or the keyboard. */
  datatype Wait = Awake | Ksem | Interruptible

  /** Where a process is: in `down` or in `do_sleep` past the point where it went to sleep, or in neither. */
  datatype Pc = Outside | InDown(sem: nat, granted: bool) | InSleep

  datatype Proc = Proc(status: Status, wait: Wait, pc: Pc)

  /** `timers` are the processes that have a timer on the timer list. */
  datatype State = State(
    procs: map<nat, Proc>,
    runq: seq<nat>,
    current: nat,
    timers: set<nat>,
    sems: map<nat, Sem>,
    ups: map<nat, nat>,
    grants: map<nat, nat>)

  datatype Action =
    | Fork(child: nat)
    | Exit
    | Reap(dead: nat)
    | CallDown(sem: nat)
    | CallTryDown(sem: nat)
    | CallUp(sem: nat)
    | ReturnDown
    | Pause
    | Wake(sleeper: nat)
    | Sleep
    | TimerFires(owner: nat)
    | ReturnSleep
    | Schedule

  // ----- steps -----

  /** The current process is running its own code, outside `down` and `do_sleep`. */
  predicate Running(st: State) {
    && st.current in st.procs && st.procs[st.current].status == Runnable
    && st.procs[st.current].pc == Outside
  }

  predicate Enabled(st: State, a: Action) {
    match a
    case Fork(child) => Running(st) && child !in st.procs
    case Exit => Running(st) && st.current != IDLE
    case Reap(dead) => Running(st) && dead in st.procs && st.procs[dead].status == Zombie && dead != st.current
    case CallDown(s) => Running(st) && s in st.sems && s in st.grants && (st.current == IDLE ==> st.sems[s].value > 0)
    case CallTryDown(s) => Running(st) && s in st.sems && s in st.grants
    case CallUp(s) => Running(st) && s in st.sems && s in st.ups && s in st.grants
    case ReturnDown => st.current in st.procs && st.procs[st.current].status == Runnable
         && st.procs[st.current].pc.InDown?
    case Pause => Running(st) && st.current != IDLE
    case Wake(p) => p in st.procs && st.procs[p].wait == Interruptible
    case Sleep => Running(st) && st.current != IDLE
    case TimerFires(p) => p in st.timers
    case ReturnSleep => st.current in st.procs && st.procs[st.current].status == Runnable
         && st.procs[st.current].pc.InSleep?
    case Schedule => st.current in st.procs
  }

  /** `wakeup_proc`, whatever it is called for. */
  function WakeUp(st: State, p: nat): State {
    if p !in st.procs || st.procs[p].status == Runnable then st
    else st.(procs := st.procs[p := st.procs[p].(status := Runnable, wait := Awake)],
             runq := if p != st.current then st.runq + [p] else st.runq)
  }

  /** `schedule`: the current process queues up if it may, the head of the queue runs, or else idle. */
  function Switched(st: State): State
    requires st.current in st.procs
  {
    var q := if st.procs[st.current].status == Runnable && st.current != IDLE then st.runq + [st.current] else st.runq;
    if q != [] then st.(runq := q[1..], current := q[0]) else st.(runq := q, current := IDLE)
  }

  function Granted(st: State, s: nat): State
    requires s in st.grants
  {
    st.(grants := st.grants[s := st.grants[s] + 1])
  }

  function StartDown(st: State, s: nat): State
    requires Enabled(st, CallDown(s))
  {
    var (sem, taken) := Down(st.sems[s], st.current);
    if taken then Granted(st.(sems := st.sems[s := sem]), s)
    else st.(sems := st.sems[s := sem], procs := st.procs[st.current := Proc(Sleeping, Ksem, InDown(s, false))])
  }

  /** `wakeup_flags` of the waiter `p` are set. */
  function Told(procs: map<nat, Proc>, p: nat, s: nat): map<nat, Proc> {
    if p in procs then procs[p := procs[p].(pc := InDown(s, true))] else procs
  }

  /** `__up`: the first waiter is taken off the queue, told that it was granted its down, and woken. */
  function DoUp(st: State, s: nat): State
    requires Enabled(st, CallUp(s))
  {
    var (sem, woken) := Up(st.sems[s]);
    var after := st.(sems := st.sems[s := sem], ups := st.ups[s := st.ups[s] + 1]);
    if woken.Nobody? then after
    else
      var p := woken.id;
      Granted(WakeUp(after.(procs := Told(st.procs, p, s)), p), s)
  }

  function Step(st: State, a: Action): State
    requires Enabled(st, a)
  {
    match a
    case Fork(child) => WakeUp(st.(procs := st.procs[child := Proc(Sleeping, Awake, Outside)]), child)
    case Exit => st.(procs := st.procs[st.current := st.procs[st.current].(status := Zombie)])
    case Reap(dead) => st.(procs := st.procs - {dead})
    case CallDown(s) => StartDown(st, s)
    case CallTryDown(s) => if st.sems[s].value > 0 then
           Granted(st.(sems := st.sems[s := st.sems[s].(value := st.sems[s].value - 1)]), s) else st
    case CallUp(s) => DoUp(st, s)
    case ReturnDown => st.(procs := st.procs[st.current := st.procs[st.current].(pc := Outside)])
    case Pause => st.(procs := st.procs[st.current := Proc(Sleeping, Interruptible, Outside)])
    case Wake(p) => WakeUp(st, p)
    case Sleep => st.(procs := st.procs[st.current := Proc(Sleeping, Interruptible, InSleep)],
           timers := st.timers + {st.current})
    case TimerFires(p) => WakeUp(st.(timers := st.timers - {p}), p)
    case ReturnSleep =>
      st.(procs := st.procs[st.current := st.procs[st.current].(pc := Outside)], timers := st.timers - {st.current})
    case Schedule => Switched(st)
  }

  // ----- the invariant -----

  predicate Queued(st: State, s: nat, p: nat) {
    s in st.sems && p in st.sems[s].queue
  }

  /** A process sleeps for a semaphore exactly while it is on that semaphore's queue, and is runnable once granted. */
  predicate ProcOk(st: State, p: nat) {
    && p in st.procs
    && var q := st.procs[p];
    && (q.wait == Awake <==> q.status != Sleeping)
    && (q.wait == Ksem <==> q.pc.InDown? && !q.pc.granted)
    && (q.pc.InDown? && q.pc.granted ==> q.status == Runnable)
    && (q.wait == Ksem ==> Queued(st, q.pc.sem, p))
    && (q.pc.InSleep? ==> q.status != Zombie && (q.status == Sleeping ==> p in st.timers))
    && (p == IDLE ==> q == Proc(Runnable, Awake, Outside))
  }

  /** A timer is pending only while its process is in `do_sleep`. */
  predicate TimerOk(st: State, p: nat) {
    p in st.procs && st.procs[p].pc.InSleep?
  }

  ghost predicate TimersOk(st: State) {
    forall p: nat :: p in st.timers ==> TimerOk(st, p)
  }

  predicate WaiterOk(st: State, s: nat, p: nat) {
    p in st.procs && st.procs[p] == Proc(Sleeping, Ksem, InDown(s, false))
  }

  ghost predicate SemOk(st: State, s: nat, init: map<nat, nat>) {
    && s in st.sems && s in st.ups && s in st.grants && s in init
    && WellFormed(st.sems[s])
    && st.sems[s].value + st.grants[s] == init[s] + st.ups[s]
    && (forall p: nat :: p in st.sems[s].queue ==> WaiterOk(st, s, p))
  }

  predicate Waits(st: State, p: nat) {
    p in st.procs && st.procs[p].status == Runnable && p != st.current && p != IDLE
  }

  /** The run queue holds each runnable process that is neither current nor idle, once, and no other. */
  ghost predicate RunqOk(st: State) {
    && (forall i: nat, j: nat :: i < j < |st.runq| ==> st.runq[i] != st.runq[j])
    && (forall p: nat :: p in st.runq <==> Waits(st, p))
  }

  ghost predicate Inv(st: State, init: map<nat, nat>) {
    && IDLE in st.procs && st.current in st.procs
    && RunqOk(st) && TimersOk(st)
    && (forall p: nat :: p in st.procs ==> ProcOk(st, p))
    && (forall s: nat :: s in st.sems ==> SemOk(st, s, init))
  }

  // ----- every step keeps it -----

  lemma ProcAt(st: State, init: map<nat, nat>, p: nat)
    requires Inv(st, init) && p in st.procs
    ensures ProcOk(st, p)
  {
  }

  lemma SemAt(st: State, init: map<nat, nat>, s: nat)
    requires Inv(st, init) && s in st.sems
    ensures SemOk(st, s, init)
  {
  }

  /** Only sleepers for a semaphore are on a queue. */
  lemma Unqueued(st: State, init: map<nat, nat>, p: nat)
    requires Inv(st, init) && p in st.procs && st.procs[p].wait != Ksem
    ensures forall s: nat :: s in st.sems ==> p !in st.sems[s].queue
  {
    hide Inv;
    forall s: nat | s in st.sems
      ensures p !in st.sems[s].queue
    {
      SemAt(st, init, s);
      assert p in st.sems[s].queue ==> WaiterOk(st, s, p);
    }
  }

  /** Everything but process `p` is in order, and `p` is on no queue. */
  ghost predicate InvBut(st: State, init: map<nat, nat>, p: nat) {
    && IDLE in st.procs && st.current in st.procs && p in st.procs
    && RunqOk(st) && TimersOk(st)
    && (forall q: nat :: q in st.procs && q != p ==> ProcOk(st, q))
    && (forall s: nat :: s in st.sems ==> SemOk(st, s, init) && p !in st.sems[s].queue)
  }

  /** Waking `p`: it is queued to run unless it is running already. */
  lemma WakeKeeps(st: State, init: map<nat, nat>, p: nat)
    requires InvBut(st, init, p) && p != IDLE && st.procs[p].status == Sleeping
    requires st.procs[p].pc.InDown? ==> st.procs[p].pc.granted
    ensures Inv(WakeUp(st, p), init)
  {
    var t := WakeUp(st, p);
    forall q: nat | q in t.procs
      ensures ProcOk(t, q)
    {
      assert q != p ==> ProcOk(st, q);
    }
    forall s: nat | s in t.sems
      ensures SemOk(t, s, init)
    {
      SemElsewhere(st, t, init, p, s);
    }
    forall q: nat
      ensures q in t.runq <==> Waits(t, q)
    {
      assert q in st.runq <==> Waits(st, q);
    }
    assert p !in st.runq;
  }

  lemma SemElsewhere(st: State, t: State, init: map<nat, nat>, p: nat, s: nat)
    requires SemOk(st, s, init) && p !in st.sems[s].queue
    requires t.sems == st.sems && t.ups == st.ups && t.grants == st.grants
    requires forall q: nat :: q in st.procs && q != p ==> q in t.procs && t.procs[q] == st.procs[q]
    ensures SemOk(t, s, init)
  {
    forall q: nat | q in t.sems[s].queue
      ensures WaiterOk(t, s, q)
    {
      assert WaiterOk(st, s, q);
    }
  }

  lemma SleeperFacts(st: State, init: map<nat, nat>, p: nat)
    requires Inv(st, init) && p in st.procs && st.procs[p].wait == Interruptible
    ensures st.procs[p].status == Sleeping && p != IDLE && !st.procs[p].pc.InDown? && InvBut(st, init, p)
  {
    ProcAt(st, init, p);
    Unqueued(st, init, p);
  }

  /** Taking a timer off the list, before its process is woken. */
  lemma Expired(st: State, init: map<nat, nat>, p: nat)
    requires Inv(st, init) && p in st.timers
    ensures p in st.procs && p != IDLE && st.procs[p].pc.InSleep?
    ensures st.procs[p].status == Sleeping ==> InvBut(st.(timers := st.timers - {p}), init, p)
    ensures st.procs[p].status != Sleeping ==>
              st.procs[p].status == Runnable && Inv(st.(timers := st.timers - {p}), init)
  {
    assert TimerOk(st, p);
    ProcAt(st, init, p);
    Unqueued(st, init, p);
    var t := st.(timers := st.timers - {p});
    forall q: nat | q in t.procs && (q != p || st.procs[p].status != Sleeping)
      ensures ProcOk(t, q)
    {
      assert ProcOk(st, q);
    }
    forall s: nat | s in t.sems
      ensures SemOk(t, s, init) && p !in t.sems[s].queue
    {
      SemElsewhere(st, t, init, p, s);
    }
    forall q: nat | q in t.timers
      ensures TimerOk(t, q)
    {
      assert TimerOk(st, q);
    }
    SameQueue(st, t);
  }

  lemma SameQueue(st: State, t: State)
    requires RunqOk(st) && t.runq == st.runq && t.procs == st.procs && t.current == st.current
    ensures RunqOk(t)
  {
    forall p: nat
      ensures p in t.runq <==> Waits(t, p)
    {
      assert p in st.runq <==> Waits(st, p);
    }
  }

  lemma TimerStep(st: State, init: map<nat, nat>, p: nat)
    requires Inv(st, init) && Enabled(st, TimerFires(p))
    ensures Inv(Step(st, TimerFires(p)), init)
  {
    Expired(st, init, p);
    if st.procs[p].status == Sleeping {
      hide Inv, InvBut;
      WakeKeeps(st.(timers := st.timers - {p}), init, p);
    }
  }

  lemma WakeStep(st: State, init: map<nat, nat>, p: nat)
    requires Inv(st, init) && Enabled(st, Wake(p))
    ensures Inv(Step(st, Wake(p)), init)
  {
    hide Inv, InvBut, WakeUp;
    SleeperFacts(st, init, p);
    WakeKeeps(st, init, p);
  }

  lemma ForkStep(st: State, init: map<nat, nat>, c: nat)
    requires Inv(st, init) && Enabled(st, Fork(c))
    ensures Inv(Step(st, Fork(c)), init)
  {
    var t := st.(procs := st.procs[c := Proc(Sleeping, Awake, Outside)]);
    assert InvBut(t, init, c) by {
      forall q: nat | q in t.procs && q != c
        ensures ProcOk(t, q)
      {
        assert ProcOk(st, q);
      }
      forall s: nat | s in t.sems
        ensures SemOk(t, s, init) && c !in t.sems[s].queue
      {
        assert SemOk(st, s, init);
        assert c in st.sems[s].queue ==> WaiterOk(st, s, c);
        SemElsewhere(st, t, init, c, s);
      }
      forall q: nat
        ensures q in t.runq <==> Waits(t, q)
      {
        assert q in st.runq <==> Waits(st, q);
      }
    }
    WakeKeeps(t, init, c);
  }

  /** A process on no queue may change its own record, as long as it keeps its place in the run queue. */
  lemma OwnKeeps(st: State, init: map<nat, nat>, q: Proc, timers: set<nat>)
    requires Inv(st, init) && st.procs[st.current].wait != Ksem && st.current != IDLE
    requires (q.wait == Awake <==> q.status != Sleeping) && q.wait != Ksem && !q.pc.InDown?
    requires q.pc.InSleep? ==> q.status != Zombie
    requires timers == if q.pc.InSleep? then st.timers + {st.current} else st.timers - {st.current}
    ensures Inv(st.(procs := st.procs[st.current := q], timers := timers), init)
  {
    var c, t := st.current, st.(procs := st.procs[st.current := q], timers := timers);
    assert forall p: nat :: p in timers && p != c ==> TimerOk(st, p);
    Unqueued(st, init, c);
    forall p: nat | p in t.procs
      ensures ProcOk(t, p)
    {
      assert ProcOk(st, p);
    }
    forall s: nat | s in t.sems
      ensures SemOk(t, s, init)
    {
      SemElsewhere(st, t, init, c, s);
    }
    forall p: nat
      ensures p in t.runq <==> Waits(t, p)
    {
      assert p in st.runq <==> Waits(st, p);
    }
  }

  lemma ReapStep(st: State, init: map<nat, nat>, d: nat)
    requires Inv(st, init) && Enabled(st, Reap(d))
    ensures Inv(Step(st, Reap(d)), init)
  {
    var t := st.(procs := st.procs - {d});
    ProcAt(st, init, d);
    Unqueued(st, init, d);
    forall p: nat | p in t.procs
      ensures ProcOk(t, p)
    {
      assert ProcOk(st, p);
    }
    forall s: nat | s in t.sems
      ensures SemOk(t, s, init)
    {
      SemElsewhere(st, t, init, d, s);
    }
    forall p: nat
      ensures p in t.runq <==> Waits(t, p)
    {
      assert p in st.runq <==> Waits(st, p);
    }
  }

  /** A semaphore changed hands with nobody queued or woken. */
  lemma CountKeeps(st: State, init: map<nat, nat>, s: nat, t: State)
    requires Inv(st, init) && s in st.sems && s in t.sems && s in t.ups && s in t.grants
    requires t == st.(sems := st.sems[s := t.sems[s]], ups := st.ups[s := t.ups[s]],
               grants := st.grants[s := t.grants[s]])
    requires t.sems[s].queue == st.sems[s].queue && WellFormed(t.sems[s])
    requires s in init && t.sems[s].value + t.grants[s] == init[s] + t.ups[s]
    ensures Inv(t, init)
  {
    forall p: nat | p in t.procs
      ensures ProcOk(t, p)
    {
      assert ProcOk(st, p);
    }
    forall r: nat | r in t.sems
      ensures SemOk(t, r, init)
    {
      assert SemOk(st, r, init);
      forall p: nat | p in t.sems[r].queue
        ensures WaiterOk(t, r, p)
      {
        assert WaiterOk(st, r, p);
      }
    }
    forall p: nat
      ensures p in t.runq <==> Waits(t, p)
    {
      assert p in st.runq <==> Waits(st, p);
    }
  }

  lemma TryDownStep(st: State, init: map<nat, nat>, s: nat)
    requires Inv(st, init) && Enabled(st, CallTryDown(s))
    ensures Inv(Step(st, CallTryDown(s)), init)
  {
    var t := Step(st, CallTryDown(s));
    SemAt(st, init, s);
    hide Inv;
    if st.sems[s].value > 0 {
      assert t.ups == st.ups[s := st.ups[s]];
      CountKeeps(st, init, s, t);
    }
  }

  lemma DownStep(st: State, init: map<nat, nat>, s: nat)
    requires Inv(st, init) && Enabled(st, CallDown(s))
    ensures Inv(Step(st, CallDown(s)), init)
  {
    var t := Step(st, CallDown(s));
    SemAt(st, init, s);
    ProcAt(st, init, st.current);
    if st.sems[s].value > 0 {
      hide Inv;
      assert t.ups == st.ups[s := st.ups[s]];
      CountKeeps(st, init, s, t);
    } else {
      hide Inv;
      BlockKeeps(st, init, s, t);
    }
  }

  /** Falling asleep on a semaphore. */
  lemma BlockKeeps(st: State, init: map<nat, nat>, s: nat, t: State)
    requires Inv(st, init) && s in st.sems && st.sems[s].value == 0 && st.current != IDLE
    requires st.procs[st.current].wait == Awake && st.procs[st.current].pc == Outside
    requires t == st.(sems := st.sems[s := Sem(0, st.sems[s].queue + [st.current])],
               procs := st.procs[st.current := Proc(Sleeping, Ksem, InDown(s, false))])
    ensures Inv(t, init)
  {
    var c := st.current;
    Unqueued(st, init, c);
    assert forall p: nat :: p in st.timers ==> TimerOk(st, p) && p != c;
    forall p: nat | p in t.procs
      ensures ProcOk(t, p)
    {
      assert ProcOk(st, p);
      assert c in t.sems[s].queue;
    }
    forall r: nat | r in t.sems
      ensures SemOk(t, r, init)
    {
      assert SemOk(st, r, init);
      forall p: nat | p in t.sems[r].queue
        ensures WaiterOk(t, r, p)
      {
        assert p != c ==> WaiterOk(st, r, p);
      }
    }
    forall p: nat
      ensures p in t.runq <==> Waits(t, p)
    {
      assert p in st.runq <==> Waits(st, p);
    }
  }

  /** The first waiter, taken off its queue. */
  lemma UnblockKeeps(st: State, init: map<nat, nat>, s: nat, p: nat, t: State)
    requires Inv(st, init) && s in st.sems && st.sems[s].queue != [] && p == st.sems[s].queue[0] && p in st.procs
             && s in st.ups && s in st.grants
    requires t == st.(sems := st.sems[s := st.sems[s].(queue := st.sems[s].queue[1..])],
               ups := st.ups[s := st.ups[s] + 1],
                      grants := st.grants[s := st.grants[s] + 1],
                            procs := st.procs[p := st.procs[p].(pc := InDown(s, true))])
    ensures st.procs[p] == Proc(Sleeping, Ksem, InDown(s, false)) && p != IDLE
    ensures InvBut(t, init, p)
  {
    assert SemOk(st, s, init) && WaiterOk(st, s, p) && ProcOk(st, p);
    forall q: nat | q in t.procs && q != p
      ensures ProcOk(t, q)
    {
      assert ProcOk(st, q);
      assert st.sems[s].queue == [p] + st.sems[s].queue[1..];
    }
    forall r: nat | r in t.sems
      ensures SemOk(t, r, init) && p !in t.sems[r].queue
    {
      UnblockSem(st, init, s, p, t, r);
    }
    forall q: nat
      ensures q in t.runq <==> Waits(t, q)
    {
      assert q in st.runq <==> Waits(st, q);
    }
  }

  lemma UnblockSem(st: State, init: map<nat, nat>, s: nat, p: nat, t: State, r: nat)
    requires SemOk(st, s, init) && SemOk(st, r, init) && st.sems[s].queue != [] && p == st.sems[s].queue[0]
             && WaiterOk(st, s, p)
    requires t == st.(sems := st.sems[s := st.sems[s].(queue := st.sems[s].queue[1..])],
               ups := st.ups[s := st.ups[s] + 1],
                      grants := st.grants[s := st.grants[s] + 1],
                            procs := st.procs[p := st.procs[p].(pc := InDown(s, true))])
    ensures SemOk(t, r, init) && p !in t.sems[r].queue
  {
    UpUnqueues(st.sems[s]);
    forall q: nat | q in t.sems[r].queue
      ensures WaiterOk(t, r, q) && q != p
    {
      assert q in st.sems[r].queue && WaiterOk(st, r, q);
    }
  }

  lemma UpStep(st: State, init: map<nat, nat>, s: nat)
    requires Inv(st, init) && Enabled(st, CallUp(s))
    ensures Inv(Step(st, CallUp(s)), init)
  {
    SemAt(st, init, s);
    hide Inv;
    var t := Step(st, CallUp(s));
    if st.sems[s].queue == [] {
      assert t.grants == st.grants[s := st.grants[s]];
      CountKeeps(st, init, s, t);
    } else {
      var p := st.sems[s].queue[0];
      assert WaiterOk(st, s, p);
      var mid := st.(sems := st.sems[s := st.sems[s].(queue := st.sems[s].queue[1..])],
            ups := st.ups[s := st.ups[s] + 1],
                     grants := st.grants[s := st.grants[s] + 1],
                           procs := st.procs[p := st.procs[p].(pc := InDown(s, true))]);
      UnblockKeeps(st, init, s, p, mid);
      WakeKeeps(mid, init, p);
      assert t == WakeUp(mid, p);
    }
  }

  lemma ScheduleStep(st: State, init: map<nat, nat>)
    requires Inv(st, init)
    ensures Inv(Switched(st), init)
  {
    var t := Switched(st);
    forall p: nat | p in t.procs
      ensures ProcOk(t, p)
    {
      assert ProcOk(st, p);
    }
    forall r: nat | r in t.sems
      ensures SemOk(t, r, init)
    {
      assert SemOk(st, r, init);
      forall p: nat | p in t.sems[r].queue
        ensures WaiterOk(t, r, p)
      {
        assert WaiterOk(st, r, p);
      }
    }
    SwitchedQueue(st);
  }

  lemma TailDistinct(q: seq<nat>)
    requires forall i: nat, j: nat :: i < j < |q| ==> q[i] != q[j]
    ensures q != [] ==> q[0] !in q[1..] && forall i: nat, j: nat :: i < j < |q[1..]| ==> q[1..][i] != q[1..][j]
  {
    if q != [] {
      forall i: nat | i < |q[1..]|
        ensures q[1..][i] != q[0]
      {
        assert q[0] != q[i + 1];
      }
    }
  }

  lemma SwitchedQueue(st: State)
    requires RunqOk(st) && st.current in st.procs && IDLE in st.procs
    ensures RunqOk(Switched(st)) && Switched(st).current in st.procs
  {
    var c := st.current;
    var t := Switched(st);
    var q := if st.procs[c].status == Runnable && c != IDLE then st.runq + [c] else st.runq;
    assert c !in st.runq;
    assert q != [] ==> q == [q[0]] + q[1..];
    assert q != [] && q[0] != c ==> q[0] in st.runq && Waits(st, q[0]);
    forall i: nat, j: nat | i < j < |q|
      ensures q[i] != q[j]
    {
      assert q[i] in st.runq;
    }
    TailDistinct(q);
    forall p: nat
      ensures p in t.runq <==> Waits(t, p)
    {
      assert p in st.runq <==> Waits(st, p);
      assert p in q <==> p in st.procs && st.procs[p].status == Runnable && p != IDLE;
    }
  }

  lemma StepKeeps(st: State, init: map<nat, nat>, a: Action)
    requires Inv(st, init) && Enabled(st, a)
    ensures Inv(Step(st, a), init)
  {
    ProcAtCurrent(st, init);
    hide Inv, StartDown, DoUp, Switched, WakeUp;
    match a {
      case Fork(c) => ForkStep(st, init, c);
      case Exit => OwnKeeps(st, init, st.procs[st.current].(status := Zombie), st.timers);
      case Reap(d) => ReapStep(st, init, d);
      case CallDown(s) => DownStep(st, init, s);
      case CallTryDown(s) => TryDownStep(st, init, s);
      case CallUp(s) => UpStep(st, init, s);
      case ReturnDown => OwnKeeps(st, init, st.procs[st.current].(pc := Outside), st.timers);
      case Pause => OwnKeeps(st, init, Proc(Sleeping, Interruptible, Outside), st.timers);
      case Wake(p) => WakeStep(st, init, p);
      case Sleep => OwnKeeps(st, init, Proc(Sleeping, Interruptible, InSleep), st.timers + {st.current});
      case TimerFires(p) => TimerStep(st, init, p);
      case ReturnSleep => OwnKeeps(st, init, st.procs[st.current].(pc := Outside), st.timers - {st.current});
      case Schedule => ScheduleStep(st, init);
    }
  }

  lemma ProcAtCurrent(st: State, init: map<nat, nat>)
    requires Inv(st, init)
    ensures st.current in st.procs && ProcOk(st, st.current)
    ensures !st.procs[st.current].pc.InSleep? ==> st.timers - {st.current} == st.timers
  {
    assert st.current in st.timers ==> TimerOk(st, st.current);
  }

  // ----- runs -----

  /** The state after boot: idle alone, and semaphores with their initial values. */
  function Boot(init: map<nat, nat>): State {
    State(map[IDLE := Proc(Runnable, Awake, Outside)], [], IDLE, {},
          map s | s in init :: Sem(init[s], []), map s | s in init :: 0, map s | s in init :: 0)
  }

  ghost predicate Run(init: map<nat, nat>, tr: seq<State>, acts: seq<Action>) {
    && |tr| == |acts| + 1 && tr[0] == Boot(init)
    && (forall i: nat :: i < |acts| ==> Enabled(tr[i], acts[i]) && tr[i + 1] == Step(tr[i], acts[i]))
  }

  lemma BootOk(init: map<nat, nat>)
    ensures Inv(Boot(init), init)
  {
    var st := Boot(init);
    assert ProcOk(st, IDLE);
    forall s: nat | s in st.sems
      ensures SemOk(st, s, init)
    {
    }
  }

  lemma {:induction false} RunInv(init: map<nat, nat>, tr: seq<State>, acts: seq<Action>, k: nat)
    requires Run(init, tr, acts) && k < |tr|
    ensures Inv(tr[k], init)
  {
    if k == 0 {
      BootOk(init);
    } else {
      RunInv(init, tr, acts, k - 1);
      assert Enabled(tr[k - 1], acts[k - 1]) && tr[k - 1 + 1] == Step(tr[k - 1], acts[k - 1]);
      StepKeeps(tr[k - 1], init, acts[k - 1]);
    }
  }

  /** The run queue holds each runnable process that is not current or idle exactly once, and no other process. */
  lemma QueueExact(init: map<nat, nat>, tr: seq<State>, acts: seq<Action>, k: nat)
    requires Run(init, tr, acts) && k < |tr|
    ensures forall i: nat, j: nat :: i < j < |tr[k].runq| ==> tr[k].runq[i] != tr[k].runq[j]
    ensures forall p: nat :: p in tr[k].runq <==>
              p in tr[k].procs && tr[k].procs[p].status == Runnable && p != tr[k].current && p != IDLE
  {
    RunInv(init, tr, acts, k);
    var st := tr[k];
    forall p: nat
      ensures p in st.runq <==> Waits(st, p)
    {
    }
  }

  /** A semaphore with units left keeps nobody waiting, and its value is what came in less what was granted. */
  lemma Accounts(init: map<nat, nat>, tr: seq<State>, acts: seq<Action>, k: nat, s: nat)
    requires Run(init, tr, acts) && k < |tr| && s in tr[k].sems
    ensures s in init && s in tr[k].ups && s in tr[k].grants
    ensures tr[k].sems[s].value > 0 ==> tr[k].sems[s].queue == []
    ensures tr[k].sems[s].value + tr[k].grants[s] == init[s] + tr[k].ups[s]
  {
    RunInv(init, tr, acts, k);
    SemAt(tr[k], init, s);
  }

  /**
   The assertions of `__up`, `down`, `run_timer_list` and `wakeup_proc`: whom an up wakes sleeps for that semaphore,
   a process that gets to run again inside `down` was granted it, and whom a timer wakes is an interruptible sleeper
   or has been woken and not yet resumed, never a zombie or a sleeper for a semaphore.
   */
  lemma AssertsHold(init: map<nat, nat>, tr: seq<State>, acts: seq<Action>, k: nat)
    requires Run(init, tr, acts) && k < |tr|
    ensures forall s: nat :: s in tr[k].sems && tr[k].sems[s].queue != []
              ==> tr[k].sems[s].queue[0] in tr[k].procs
                  && tr[k].procs[tr[k].sems[s].queue[0]] == Proc(Sleeping, Ksem, InDown(s, false))
    ensures tr[k].current in tr[k].procs
    ensures var c := tr[k].procs[tr[k].current]; c.status == Runnable && c.pc.InDown? ==> c.pc.granted
    ensures forall p: nat :: p in tr[k].timers ==>
              && p in tr[k].procs
              && (tr[k].procs[p] == Proc(Sleeping, Interruptible, InSleep)
                 || tr[k].procs[p] == Proc(Runnable, Awake, InSleep))
  {
    RunInv(init, tr, acts, k);
    forall p: nat | p in tr[k].timers
      ensures p in tr[k].procs && tr[k].procs[p].pc.InSleep? && ProcOk(tr[k], p)
    {
      assert TimerOk(tr[k], p);
    }
    ProcAtCurrent(tr[k], init);
    var st := tr[k];
    forall s: nat | s in st.sems && st.sems[s].queue != []
      ensures WaiterOk(st, s, st.sems[s].queue[0])
    {
      SemAt(st, init, s);
      assert st.sems[s].queue[0] in st.sems[s].queue;
    }
  }

  /** Whoever sleeps in `do_sleep` has a timer that will wake it. */
  lemma TimerPending(init: map<nat, nat>, tr: seq<State>, acts: seq<Action>, k: nat, p: nat)
    requires Run(init, tr, acts) && k < |tr| && p in tr[k].procs && tr[k].procs[p].status == Sleeping
             && tr[k].procs[p].pc == InSleep
    ensures p in tr[k].timers && Step(tr[k], TimerFires(p)).procs[p] == Proc(Runnable, Awake, InSleep)
  {
    RunInv(init, tr, acts, k);
    ProcAt(tr[k], init, p);
  }

  // ----- what a run has done -----

  /** The processes that are there, those that have ended, those asleep, and those in a call of `down` or `do_sleep`
      that has gone to sleep; and the pending timers. */
  datatype Past = Past(alive: set<nat>, dead: set<nat>, asleep: set<nat>, downs: set<nat>, naps: set<nat>,
                       timers: set<nat>)

  /** What an action adds to the past: a down sleeps exactly when there is no unit, and an up wakes the first waiter. */
  function Note(h: Past, st: State, a: Action): Past
    requires Enabled(st, a)
  {
    match a
    case Fork(child) => h.(alive := h.alive + {child})
    case Exit => h.(dead := h.dead + {st.current})
    case Reap(dead) => h.(alive := h.alive - {dead}, dead := h.dead - {dead})
    case CallDown(s) =>
      if st.sems[s].value > 0 then h else h.(asleep := h.asleep + {st.current}, downs := h.downs + {st.current})
    case CallTryDown(_) => h
    case CallUp(s) => if st.sems[s].queue == [] then h else h.(asleep := h.asleep - {st.sems[s].queue[0]})
    case ReturnDown => h.(downs := h.downs - {st.current})
    case Pause => h.(asleep := h.asleep + {st.current})
    case Wake(p) => h.(asleep := h.asleep - {p})
    case Sleep => h.(asleep := h.asleep + {st.current}, naps := h.naps + {st.current},
                     timers := h.timers + {st.current})
    case TimerFires(p) => h.(asleep := h.asleep - {p}, timers := h.timers - {p})
    case ReturnSleep => h.(naps := h.naps - {st.current}, timers := h.timers - {st.current})
    case Schedule => h
  }

  ghost function History(init: map<nat, nat>, tr: seq<State>, acts: seq<Action>, k: nat): Past
    requires Run(init, tr, acts) && k < |tr|
  {
    if k == 0 then Past({IDLE}, {}, {}, {}, {}, {})
    else Note(History(init, tr, acts, k - 1), tr[k - 1], acts[k - 1])
  }

  predicate Recalls(h: Past, st: State, p: nat) {
    && (p in h.alive <==> p in st.procs)
    && (p in h.dead <==> p in st.procs && st.procs[p].status == Zombie)
    && (p in h.asleep <==> p in st.procs && st.procs[p].status == Sleeping)
    && (p in h.downs <==> p in st.procs && st.procs[p].pc.InDown?)
    && (p in h.naps <==> p in st.procs && st.procs[p].pc.InSleep?)
    && (p in h.timers <==> p in st.timers)
  }

  /** A timer belongs to a process in `do_sleep`. */
  lemma TimerFacts(st: State, init: map<nat, nat>, p: nat)
    requires Inv(st, init)
    ensures p in st.timers ==> p in st.procs && st.procs[p].pc.InSleep? && st.procs[p].status != Zombie
  {
    if p in st.timers {
      assert TimerOk(st, p);
      ProcAt(st, init, p);
    }
  }

  lemma NoteUp(h: Past, st: State, init: map<nat, nat>, s: nat, p: nat)
    requires Inv(st, init) && Enabled(st, CallUp(s)) && Recalls(h, st, p)
    ensures Recalls(Note(h, st, CallUp(s)), Step(st, CallUp(s)), p)
  {
    SemAt(st, init, s);
    assert st.sems[s].queue != [] ==> WaiterOk(st, s, st.sems[s].queue[0]);
    hide Inv, SemOk;
  }

  lemma NoteOwn(h: Past, st: State, a: Action, p: nat)
    requires Enabled(st, a) && Recalls(h, st, p) && st.current in st.procs
    requires a.Exit? || a.CallDown? || a.CallTryDown? || a.ReturnDown? || a.Pause? || a.Sleep? || a.ReturnSleep?
    ensures Recalls(Note(h, st, a), Step(st, a), p)
  {
  }

  lemma NoteOther(h: Past, st: State, a: Action, p: nat)
    requires Enabled(st, a) && Recalls(h, st, p) && (a.Fork? || a.Reap? || a.Wake? || a.TimerFires? || a.Schedule?)
    requires forall q: nat :: q in st.timers ==>
               q in st.procs && st.procs[q].pc.InSleep? && st.procs[q].status != Zombie
    requires a.Wake? ==> st.procs[a.sleeper].status == Sleeping
    requires a.Reap? ==> st.procs[a.dead].pc.Outside?
    ensures Recalls(Note(h, st, a), Step(st, a), p)
  {
  }

  lemma NoteRecalls(h: Past, st: State, init: map<nat, nat>, a: Action, p: nat)
    requires Inv(st, init) && Enabled(st, a) && Recalls(h, st, p)
    ensures Recalls(Note(h, st, a), Step(st, a), p)
  {
    hide Inv, Recalls, Note, Step, TimersOk;
    ProcAtCurrent(st, init);
    match a {
      case CallUp(s) => NoteUp(h, st, init, s, p);
      case Fork(_) => TimersFacts(st, init); NoteOther(h, st, a, p);
      case Reap(d) => TimersFacts(st, init); ProcAt(st, init, d); NoteOther(h, st, a, p);
      case Wake(q) => TimersFacts(st, init); ProcAt(st, init, q); NoteOther(h, st, a, p);
      case TimerFires(_) => TimersFacts(st, init); NoteOther(h, st, a, p);
      case Schedule => TimersFacts(st, init); NoteOther(h, st, a, p);
      case _ => NoteOwn(h, st, a, p);
    }
  }

  lemma TimersFacts(st: State, init: map<nat, nat>)
    requires Inv(st, init)
    ensures forall q: nat :: q in st.timers ==>
              q in st.procs && st.procs[q].pc.InSleep? && st.procs[q].status != Zombie
  {
    hide Inv;
    forall q: nat | q in st.timers
      ensures q in st.procs && st.procs[q].pc.InSleep? && st.procs[q].status != Zombie
    {
      TimerFacts(st, init, q);
    }
  }

  /** In every state of every run the process table is what the actions so far have made of it: who was forked and not
      yet reaped is there, who has ended is a zombie, and asleep is exactly who went to sleep and was not woken. */
  lemma {:induction false} HistoryExact(init: map<nat, nat>, tr: seq<State>, acts: seq<Action>, k: nat, p: nat)
    requires Run(init, tr, acts) && k < |tr|
    ensures Recalls(History(init, tr, acts, k), tr[k], p)
  {
    if k > 0 {
      HistoryExact(init, tr, acts, k - 1, p);
      RunInv(init, tr, acts, k - 1);
      assert Enabled(tr[k - 1], acts[k - 1]) && tr[k - 1 + 1] == Step(tr[k - 1], acts[k - 1]);
      NoteRecalls(History(init, tr, acts, k - 1), tr[k - 1], init, acts[k - 1], p);
    }
  }

  /** What may happen next, told by what has happened: the current process, if it is awake, returns from the call it is
      in, or makes any call; a timer fires exactly if it is pending; and `schedule` is always possible. */
  ghost predicate MayDo(h: Past, st: State, a: Action) {
    var awake := st.current !in h.dead && st.current !in h.asleep;
    var calls := awake && st.current !in h.downs && st.current !in h.naps;
    match a
    case Fork(child) => Enabled(st, a) <==> calls && child !in h.alive
    case Exit => Enabled(st, a) <==> calls && st.current != IDLE
    case Reap(dead) => Enabled(st, a) <==> calls && dead in h.dead
    case ReturnDown => Enabled(st, a) <==> awake && st.current in h.downs
    case Pause => Enabled(st, a) <==> calls && st.current != IDLE
    case Sleep => Enabled(st, a) <==> calls && st.current != IDLE
    case TimerFires(owner) => Enabled(st, a) <==> owner in h.timers
    case ReturnSleep => Enabled(st, a) <==> awake && st.current in h.naps
    case Schedule => Enabled(st, a) && st.current in h.alive
    case _ => Running(st) <==> calls
  }

  lemma MayGoOn(init: map<nat, nat>, tr: seq<State>, acts: seq<Action>, k: nat, a: Action)
    requires Run(init, tr, acts) && k < |tr|
    ensures MayDo(History(init, tr, acts, k), tr[k], a)
  {
    hide Inv, History, Step;
    RunInv(init, tr, acts, k);
    ProcAtCurrent(tr[k], init);
    HistoryExact(init, tr, acts, k, tr[k].current);
    match a {
      case Fork(c) => HistoryExact(init, tr, acts, k, c);
      case Reap(d) => HistoryExact(init, tr, acts, k, d);
      case TimerFires(p) => HistoryExact(init, tr, acts, k, p);
      case _ =>
    }
  }

  /** Semaphores are there from the start, and may be used by whoever may make a call; idle does not sleep. */
  lemma MayUse(init: map<nat, nat>, tr: seq<State>, acts: seq<Action>, k: nat, s: nat)
    requires Run(init, tr, acts) && k < |tr| && s in init
    ensures Enabled(tr[k], CallUp(s)) <==> Running(tr[k])
    ensures Enabled(tr[k], CallTryDown(s)) <==> Running(tr[k])
    ensures Enabled(tr[k], CallDown(s)) <==>
              Running(tr[k])
              && (tr[k].current == IDLE ==> Ups(acts[..k], s) + init[s] > GrantsSoFar(init, tr, acts, k, s))
  {
    ValueCounts(init, tr, acts, k, s);
  }

  /** The ups of semaphore `s`. */
  function Ups(acts: seq<Action>, s: nat): nat {
    if acts == [] then 0 else Ups(acts[..|acts| - 1], s) + if acts[|acts| - 1] == CallUp(s) then 1 else 0
  }

  /** An action grants a unit of `s`: it takes one that is there, or hands one to a waiter. */
  predicate Grants(st: State, a: Action, s: nat) {
    && s in st.sems
    && (if a == CallDown(s) || a == CallTryDown(s) then st.sems[s].value > 0
        else a == CallUp(s) && st.sems[s].queue != [])
  }

  ghost function GrantsSoFar(init: map<nat, nat>, tr: seq<State>, acts: seq<Action>, k: nat, s: nat): nat
    requires Run(init, tr, acts) && k < |tr|
  {
    if k == 0 then 0
    else GrantsSoFar(init, tr, acts, k - 1, s) + if Grants(tr[k - 1], acts[k - 1], s) then 1 else 0
  }

  lemma InLedger(st: State, init: map<nat, nat>, s: nat)
    requires SemOk(st, s, init)
    ensures s in st.ups && s in st.grants && (st.sems[s].value > 0 ==> st.sems[s].queue == [])
  {
  }

  lemma StepCounts(st: State, init: map<nat, nat>, a: Action, s: nat)
    requires Inv(st, init) && Enabled(st, a) && s in st.sems
    ensures s in st.ups && s in st.grants && s in Step(st, a).sems && s in Step(st, a).ups && s in Step(st, a).grants
    ensures Step(st, a).ups[s] == st.ups[s] + if a == CallUp(s) then 1 else 0
    ensures Step(st, a).grants[s] == st.grants[s] + if Grants(st, a, s) then 1 else 0
  {
    hide Inv, ProcOk, SemOk;
    assert s in st.ups && s in st.grants by {
      SemAt(st, init, s);
      InLedger(st, init, s);
    }
  }

  /** The value of a semaphore is its initial value, and one for every up, less the units granted so far. */
  lemma {:induction false} ValueCounts(init: map<nat, nat>, tr: seq<State>, acts: seq<Action>, k: nat, s: nat)
    requires Run(init, tr, acts) && k < |tr| && s in init
    ensures s in tr[k].sems && s in tr[k].ups && s in tr[k].grants
    ensures tr[k].ups[s] == Ups(acts[..k], s) && tr[k].grants[s] == GrantsSoFar(init, tr, acts, k, s)
    ensures tr[k].sems[s].value + GrantsSoFar(init, tr, acts, k, s) == init[s] + Ups(acts[..k], s)
  {
    hide Inv, Step;
    if k > 0 {
      ValueCounts(init, tr, acts, k - 1, s);
      RunInv(init, tr, acts, k - 1);
      assert Enabled(tr[k - 1], acts[k - 1]) && tr[k - 1 + 1] == Step(tr[k - 1], acts[k - 1]);
      StepCounts(tr[k - 1], init, acts[k - 1], s);
      assert acts[..k][..k - 1] == acts[..k - 1];
    }
    Accounts(init, tr, acts, k, s);
  }

  // ----- round robin -----

  /** How many times the processor was handed over. */
  function Switches(acts: seq<Action>): nat {
    if acts == [] then 0 else Switches(acts[1..]) + if acts[0] == Schedule then 1 else 0
  }

  /** A waiting process moves up by one place at each switch and is never overtaken. */
  lemma MovesUp(st: State, a: Action, i: nat)
    requires Enabled(st, a) && i < |st.runq|
    ensures a != Schedule ==> i < |Step(st, a).runq| && Step(st, a).runq[i] == st.runq[i]
    ensures a == Schedule && i == 0 ==> Step(st, a).current == st.runq[0]
    ensures a == Schedule && i > 0 ==> i - 1 < |Step(st, a).runq| && Step(st, a).runq[i - 1] == st.runq[i]
  {
  }

  ghost predicate Path(tr: seq<State>, acts: seq<Action>) {
    && |tr| == |acts| + 1
    && (forall i: nat :: i < |acts| ==> Enabled(tr[i], acts[i]) && tr[i + 1] == Step(tr[i], acts[i]))
  }

  /** No starvation: the process at place `i` of the run queue gets the processor at the latest with the
      `i + 1`-th switch. */
  lemma {:induction false} Runs(tr: seq<State>, acts: seq<Action>, p: nat, i: nat)
    requires Path(tr, acts) && i < |tr[0].runq| && tr[0].runq[i] == p && Switches(acts) > i
    ensures exists k: nat :: k < |tr| && tr[k].current == p
  {
    assert Enabled(tr[0], acts[0]) && tr[0 + 1] == Step(tr[0], acts[0]);
    MovesUp(tr[0], acts[0], i);
    if acts[0] == Schedule && i == 0 {
      assert tr[1].current == p;
    } else {
      PathTail(tr, acts);
      Runs(tr[1..], acts[1..], p, if acts[0] == Schedule then i - 1 else i);
      var k: nat :| k < |tr[1..]| && tr[1..][k].current == p;
      assert tr[k + 1].current == p;
    }
  }

  lemma PathTail(tr: seq<State>, acts: seq<Action>)
    requires Path(tr, acts) && acts != []
    ensures Path(tr[1..], acts[1..])
  {
    forall i: nat | i < |acts[1..]|
      ensures Enabled(tr[1..][i], acts[1..][i]) && tr[1..][i + 1] == Step(tr[1..][i], acts[1..][i])
    {
      assert Enabled(tr[i + 1], acts[i + 1]) && tr[i + 1 + 1] == Step(tr[i + 1], acts[i + 1]);
    }
  }
}
