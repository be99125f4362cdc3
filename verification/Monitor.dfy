/**
 Hand-off semaphores and the Hoare monitor built on them, as an interleaving
 of atomic semaphore operations.

 `Semaphores` gives a semaphore as a value together with its FIFO wait queue.
 `Monitor` runs any number of processes over one monitor with any number of
 condition variables.  Each process may at any moment enter, signal, wait or
 leave, so the results hold for every client of the monitor.
 */
module Semaphores {

  datatype Sem = Sem(value: nat, queue: seq<nat>)

  /** Who, if anybody, is handed the unit that an up releases. */
  datatype Woken = Nobody | Process(id: nat)

  /** `__up`: the head of the wait queue gets the unit; the value only grows
      when nobody waits. */
  function Up(s: Sem): (r: (Sem, Woken)) {
    if s.queue == [] then (s.(value := s.value + 1), Nobody)
    else (s.(queue := s.queue[1..]), Process(s.queue[0]))
  }

  /** `__down` up to the point where it either returns or sleeps; the flag
      says whether the unit was taken at once. */
  function Down(s: Sem, p: nat): (r: (Sem, bool)) {
    if s.value > 0 then (s.(value := s.value - 1), true)
    else (s.(queue := s.queue + [p]), false)
  }

  /** A semaphore with units left has nobody queued, and nobody queues twice. */
  ghost predicate WellFormed(s: Sem) {
    && (s.value > 0 ==> s.queue == [])
    && forall i, j :: 0 <= i < j < |s.queue| ==> s.queue[i] != s.queue[j]
  }

  /** A down by a process that is not queued keeps the semaphore well formed
      and queues exactly that process when it fails. */
  lemma DownQueues(s: Sem, p: nat)
    requires WellFormed(s) && p !in s.queue
    ensures WellFormed(Down(s, p).0)
    ensures forall q :: q in Down(s, p).0.queue <==> q in s.queue || (q == p && !Down(s, p).1)
  {
  }

  /** An up keeps the semaphore well formed and unqueues exactly the process it wakes. */
  lemma UpUnqueues(s: Sem)
    requires WellFormed(s)
    ensures WellFormed(Up(s).0)
    ensures forall q :: q in Up(s).0.queue <==> q in s.queue && Up(s).1 != Process(q)
    ensures Up(s).1.Process? ==> Up(s).1.id in s.queue
  {
    if s.queue != [] {
      assert s.queue == [s.queue[0]] + s.queue[1..];
    }
  }

  datatype Op = UpBy | DownBy(p: nat)

  function After(s: Sem, ops: seq<Op>): Sem {
    if ops == [] then s
    else
      var t := After(s, ops[..|ops| - 1]);
      match ops[|ops| - 1]
      case UpBy => Up(t).0
      case DownBy(p) => Down(t, p).0
  }

  /** The processes that had to wait, in the order of their downs. */
  function Waited(s: Sem, ops: seq<Op>): seq<nat> {
    if ops == [] then []
    else
      var t, last := After(s, ops[..|ops| - 1]), ops[|ops| - 1];
      Waited(s, ops[..|ops| - 1]) + if last.DownBy? && t.value == 0 then [last.p] else []
  }

  /** The processes that were woken, in order. */
  function WokenIn(s: Sem, ops: seq<Op>): seq<nat> {
    if ops == [] then []
    else
      var t, last := After(s, ops[..|ops| - 1]), ops[|ops| - 1];
      WokenIn(s, ops[..|ops| - 1]) + if last.UpBy? && Up(t).1.Process? then [Up(t).1.id] else []
  }

  function Count(ops: seq<Op>): nat {
    if ops == [] then 0 else Count(ops[..|ops| - 1]) + if ops[|ops| - 1].UpBy? then 1 else 0
  }

  /** Whoever waits is woken in the order of arrival, and an up wakes somebody exactly when somebody waits: the woken
      ones and those still queued are, in order, those that had to wait; no unit is lost. */
  lemma {:induction false} FirstComeFirstServed(s: Sem, ops: seq<Op>)
    requires WellFormed(s) && s.queue == []
    ensures WokenIn(s, ops) + After(s, ops).queue == Waited(s, ops)
    ensures After(s, ops).value > 0 ==> After(s, ops).queue == []
    ensures After(s, ops).value + (|ops| - Count(ops)) == s.value + Count(ops) + |After(s, ops).queue|
  {
    if ops != [] {
      FirstComeFirstServed(s, ops[..|ops| - 1]);
      var t := After(s, ops[..|ops| - 1]);
      if ops[|ops| - 1].UpBy? && t.queue != [] {
        assert t.queue == [t.queue[0]] + t.queue[1..];
      }
    }
  }
}

module Monitor {
  import opened Semaphores

  /** The monitor's semaphores: its entry mutex, the queue of suspended
      signallers, and one per condition variable. */
  datatype SemId = Mutex | Next | CvSem(c: nat)

  /** Where a process stands in the monitor code. */
  datatype Pc =
    | Outside
    | Queued(x: SemId)             // asleep in down(x)
    | Granted(x: SemId)            // past down(x), its next statement not yet run
    | Inside                       // running a monitor routine
    | SignalPosting(c: nat)        // cond_signal: next_count raised, about to up(cv.sem)
    | SignalPosted                 // cond_signal: about to down(next)
    | WaitReleasing(c: nat)        // cond_wait: count raised, about to release the monitor
    | WaitReleased(c: nat)         // cond_wait: about to down(cv.sem)

  datatype State = State(sems: map<SemId, Sem>, nextCount: int, counts: seq<int>, pcs: seq<Pc>)

  datatype Action =
    | Enter | EnterResume
    | SignalBegin(c: nat) | SignalPost | SignalDown | SignalResume
    | WaitBegin(c: nat) | WaitRelease | WaitDown | WaitResume
    | Leave

  predicate IsSem(s: State, x: SemId) {
    x.CvSem? ==> x.c < |s.counts|
  }

  /** `monitor_init`, with every process outside. */
  function Init(ncv: nat, nproc: nat): (s: State) {
    var cvSems := map c | 0 <= c < ncv :: CvSem(c) := Sem(0, []);
    State(cvSems[Mutex := Sem(1, [])][Next := Sem(0, [])],
          0, seq(ncv, _ => 0), seq(nproc, _ => Outside))
  }

  predicate Enabled(s: State, p: nat, a: Action) {
    p < |s.pcs| &&
    match a
    case Enter => s.pcs[p].Outside?
    case EnterResume => s.pcs[p] == Granted(Mutex)
    case SignalBegin(c) => s.pcs[p].Inside? && c < |s.counts|
    case SignalPost => s.pcs[p].SignalPosting?
    case SignalDown => s.pcs[p].SignalPosted?
    case SignalResume => s.pcs[p] == Granted(Next)
    case WaitBegin(c) => s.pcs[p].Inside? && c < |s.counts|
    case WaitRelease => s.pcs[p].WaitReleasing?
    case WaitDown => s.pcs[p].WaitReleased?
    case WaitResume => s.pcs[p].Granted? && s.pcs[p].x.CvSem?
    case Leave => s.pcs[p].Inside?
  }

  /** What `wakeup_wait` does to the woken process. */
  function Wake(pcs: seq<Pc>, w: Woken): (r: seq<Pc>)
    ensures |r| == |pcs|
  {
    if w.Process? && w.id < |pcs| && pcs[w.id].Queued? then pcs[w.id := Granted(pcs[w.id].x)] else pcs
  }

  /** `up(x)` by process `p`, which then stands at `pc`. */
  function Give(s: State, p: nat, x: SemId, pc: Pc): (r: State)
    requires p < |s.pcs| && x in s.sems
  {
    var (sem, woken) := Up(s.sems[x]);
    s.(sems := s.sems[x := sem], pcs := Wake(s.pcs, woken)[p := pc])
  }

  /** `down(x)` by process `p`. */
  function Take(s: State, p: nat, x: SemId): (r: State)
    requires p < |s.pcs| && x in s.sems
  {
    var (sem, taken) := Down(s.sems[x], p);
    s.(sems := s.sems[x := sem], pcs := s.pcs[p := if taken then Granted(x) else Queued(x)])
  }

  /** The exit protocol prefers a suspended signaller to a newcomer. */
  function ReleaseTo(s: State): SemId {
    if s.nextCount > 0 then Next else Mutex
  }

  function Step(s: State, p: nat, a: Action): (r: State)
    requires Enabled(s, p, a) && Typed(s)
    ensures |r.pcs| == |s.pcs| && |r.counts| == |s.counts|
  {
    match a
    case Enter => Take(s, p, Mutex)
    case EnterResume => s.(pcs := s.pcs[p := Inside])
    case SignalBegin(c) =>
      if s.counts[c] > 0 then s.(nextCount := s.nextCount + 1, pcs := s.pcs[p := SignalPosting(c)]) else s
    case SignalPost => assert PcTyped(s.pcs[p], |s.counts|); Give(s, p, CvSem(s.pcs[p].c), SignalPosted)
    case SignalDown => Take(s, p, Next)
    case SignalResume => s.(nextCount := s.nextCount - 1, pcs := s.pcs[p := Inside])
    case WaitBegin(c) => s.(counts := s.counts[c := s.counts[c] + 1], pcs := s.pcs[p := WaitReleasing(c)])
    case WaitRelease => Give(s, p, ReleaseTo(s), WaitReleased(s.pcs[p].c))
    case WaitDown => assert PcTyped(s.pcs[p], |s.counts|); Take(s, p, CvSem(s.pcs[p].c))
    case WaitResume =>
      assert PcTyped(s.pcs[p], |s.counts|);
      var c := s.pcs[p].x.c;
      s.(counts := s.counts[c := s.counts[c] - 1], pcs := s.pcs[p := Inside])
    case Leave => Give(s, p, ReleaseTo(s), Outside)
  }

  /** Program counters only name condition variables that exist. */
  predicate PcTyped(pc: Pc, ncv: nat) {
    match pc
    case Queued(x) => x.CvSem? ==> x.c < ncv
    case Granted(x) => x.CvSem? ==> x.c < ncv
    case SignalPosting(c) => c < ncv
    case WaitReleasing(c) => c < ncv
    case WaitReleased(c) => c < ncv
    case _ => true
  }

  ghost predicate Typed(s: State) {
    && (forall x :: x in s.sems <==> IsSem(s, x))
    && (forall p :: 0 <= p < |s.pcs| ==> PcTyped(s.pcs[p], |s.counts|))
  }

  // ----- the invariant -----

  /** The places where the right to run in the monitor can be. */
  datatype Place = In(x: SemId) | With(p: nat)

  /** Program points at which a process holds the baton. */
  predicate Holds(pc: Pc) {
    pc.Granted? || pc.Inside? || pc.SignalPosting? || pc.WaitReleasing?
  }

  predicate Signalling(pc: Pc) {
    pc.SignalPosting? || pc.SignalPosted? || pc == Queued(Next) || pc == Granted(Next)
  }

  predicate WaitingOn(pc: Pc, c: nat) {
    pc == WaitReleasing(c) || pc == WaitReleased(c) || pc == Queued(CvSem(c)) || pc == Granted(CvSem(c))
  }

  function Signallers(pcs: seq<Pc>): set<nat> {
    set p | 0 <= p < |pcs| && Signalling(pcs[p])
  }

  function Waiters(pcs: seq<Pc>, c: nat): set<nat> {
    set p | 0 <= p < |pcs| && WaitingOn(pcs[p], c)
  }

  /** The baton is in exactly one place, and it is `b`. */
  ghost predicate BatonAt(s: State, b: Place) {
    && (forall x :: x in s.sems ==> s.sems[x].value == (if b == In(x) then 1 else 0))
    && (forall p :: 0 <= p < |s.pcs| ==> (Holds(s.pcs[p]) <==> b == With(p)))
    && (match b case In(x) => x in s.sems case With(p) => p < |s.pcs|)
  }

  predicate Asleep(s: State, p: nat, x: SemId) {
    p < |s.pcs| && s.pcs[p] == Queued(x)
  }

  /** Each wait queue lists exactly the processes asleep on its semaphore. */
  ghost predicate QueuesOk(s: State) {
    && (forall x :: x in s.sems ==> WellFormed(s.sems[x]))
    && (forall x, p: nat :: x in s.sems ==> (p in s.sems[x].queue <==> Asleep(s, p, x)))
  }

  /** The two kinds of counters count the signallers and the waiters not yet resumed. */
  ghost predicate CountsOk(s: State) {
    && s.nextCount == |Signallers(s.pcs)|
    && (forall c: nat :: c < |s.counts| ==> s.counts[c] == |Waiters(s.pcs, c)|)
  }

  /** A baton parked in a semaphore is parked there for somebody. */
  ghost predicate Claimed(s: State, b: Place) {
    && (b == In(Mutex) ==> s.nextCount == 0)
    && (b == In(Next) ==> s.nextCount > 0)
    && (b.In? && b.x.CvSem? && b.x.c < |s.counts| ==> s.counts[b.x.c] > 0)
    && (b.With? && b.p < |s.pcs| ==> match s.pcs[b.p]
                      case SignalPosting(c) => c < |s.counts| && s.counts[c] > 0
                      case _ => true)
  }

  ghost predicate InvAt(s: State, b: Place) {
    Typed(s) && BatonAt(s, b) && QueuesOk(s) && CountsOk(s) && Claimed(s, b)
  }

  ghost predicate Inv(s: State) {
    exists b :: InvAt(s, b)
  }

  // ----- every step keeps it -----

  /** Moving one process changes the counted sets by at most that process. */
  lemma MoveOne(pcs: seq<Pc>, p: nat, pc: Pc)
    requires p < |pcs|
    ensures Signallers(pcs[p := pc]) == (if Signalling(pc) then Signallers(pcs) + {p} else Signallers(pcs) - {p})
    ensures forall c: nat :: Waiters(pcs[p := pc], c) == (if WaitingOn(pc, c) then Waiters(pcs, c) + {p}
              else Waiters(pcs, c) - {p})
  {
  }

  /** Waking a process changes no counted set. */
  lemma WakeKeepsSets(pcs: seq<Pc>, w: Woken)
    ensures Signallers(Wake(pcs, w)) == Signallers(pcs)
    ensures forall c: nat :: Waiters(Wake(pcs, w), c) == Waiters(pcs, c)
  {
    if w.Process? && w.id < |pcs| && pcs[w.id].Queued? {
      MoveOne(pcs, w.id, Granted(pcs[w.id].x));
    }
  }

  /** Where an up leaves the baton. */
  function GivenTo(s: State, x: SemId): Place
    requires x in s.sems
  {
    var woken := Up(s.sems[x]).1;
    if woken.Process? then With(woken.id) else In(x)
  }

  /** An up by the holder moves the baton into the semaphore or to its first sleeper. */
  lemma GiveKeeps(s: State, p: nat, x: SemId, pc: Pc)
    requires Typed(s) && BatonAt(s, With(p)) && QueuesOk(s)
    requires p < |s.pcs| && x in s.sems && PcTyped(pc, |s.counts|) && !Holds(pc) && !pc.Queued?
    ensures var r := Give(s, p, x, pc); Typed(r) && BatonAt(r, GivenTo(s, x)) && QueuesOk(r)
  {
    UpUnqueues(s.sems[x]);
    hide WellFormed, IsSem, PcTyped;
    var r := Give(s, p, x, pc);
    forall y, q: nat | y in r.sems
      ensures q in r.sems[y].queue <==> Asleep(r, q, y)
    {
      assert q in s.sems[y].queue <==> Asleep(s, q, y);
    }
  }

  /** A down by a process without the baton takes the baton, or queues the process. */
  lemma TakeKeeps(s: State, p: nat, x: SemId, b: Place)
    requires Typed(s) && BatonAt(s, b) && QueuesOk(s)
    requires p < |s.pcs| && x in s.sems && !Holds(s.pcs[p]) && !s.pcs[p].Queued?
    ensures var r := Take(s, p, x);
            Typed(r) && BatonAt(r, if b == In(x) then With(p) else b) && QueuesOk(r)
  {
    DownQueues(s.sems[x], p);
    var r := Take(s, p, x);
    forall y, q: nat | y in r.sems
      ensures q in r.sems[y].queue <==> Asleep(r, q, y)
    {
      assert q in s.sems[y].queue <==> Asleep(s, q, y);
    }
  }

  /** A statement of the holder that touches no semaphore. */
  lemma MoveKeeps(s: State, s': State, p: nat, pc: Pc)
    requires Typed(s) && BatonAt(s, With(p)) && QueuesOk(s) && p < |s.pcs|
    requires s'.sems == s.sems && |s'.counts| == |s.counts| && s'.pcs == s.pcs[p := pc]
    requires PcTyped(pc, |s.counts|) && Holds(pc)
    ensures Typed(s') && BatonAt(s', With(p)) && QueuesOk(s')
  {
    forall y, q: nat | y in s'.sems
      ensures q in s'.sems[y].queue <==> Asleep(s', q, y)
    {
      assert q in s.sems[y].queue <==> Asleep(s, q, y);
    }
  }

  /** Where the baton is after a step. */
  function NextPlace(s: State, p: nat, a: Action, b: Place): Place
    requires Enabled(s, p, a) && Typed(s)
  {
    match a
    case Enter => if b == In(Mutex) then With(p) else b
    case SignalPost => assert PcTyped(s.pcs[p], |s.counts|); GivenTo(s, CvSem(s.pcs[p].c))
    case SignalDown => if b == In(Next) then With(p) else b
    case WaitDown => if b == In(CvSem(s.pcs[p].c)) then With(p) else b
    case WaitRelease => GivenTo(s, ReleaseTo(s))
    case Leave => GivenTo(s, ReleaseTo(s))
    case _ => b
  }

  lemma StepKeepsBaton(s: State, p: nat, a: Action, b: Place)
    requires InvAt(s, b) && Enabled(s, p, a)
    ensures var s' := Step(s, p, a); Typed(s') && BatonAt(s', NextPlace(s, p, a, b)) && QueuesOk(s')
  {
    var s' := Step(s, p, a);
    assert PcTyped(s.pcs[p], |s.counts|);
    match a {
      case Enter => TakeKeeps(s, p, Mutex, b);
      case SignalPost => GiveKeeps(s, p, CvSem(s.pcs[p].c), SignalPosted);
      case SignalDown => TakeKeeps(s, p, Next, b);
      case WaitRelease => GiveKeeps(s, p, ReleaseTo(s), WaitReleased(s.pcs[p].c));
      case WaitDown => TakeKeeps(s, p, CvSem(s.pcs[p].c), b);
      case Leave => GiveKeeps(s, p, ReleaseTo(s), Outside);
      case SignalBegin(c) => if s.counts[c] > 0 { MoveKeeps(s, s', p, s'.pcs[p]); }
      case _ => MoveKeeps(s, s', p, s'.pcs[p]);
    }
  }

  function One(b: bool): int {
    if b then 1 else 0
  }

  lemma SizeAfter(S: set<nat>, p: nat, add: bool)
    ensures |if add then S + {p} else S - {p}| == |S| + One(add) - One(p in S)
  {
    if p in S {
      assert S + {p} == S;
    } else {
      assert S - {p} == S;
    }
  }

  /** How the counted sets grow when a process moves and another is woken. */
  lemma CountsAfter(pcs: seq<Pc>, w: Woken, p: nat, pc: Pc)
    requires p < |pcs|
    ensures var r := Wake(pcs, w)[p := pc];
            && |Signallers(r)| == |Signallers(pcs)| + One(Signalling(pc)) - One(Signalling(pcs[p]))
            && forall c: nat :: |Waiters(r, c)| == |Waiters(pcs, c)| + One(WaitingOn(pc, c)) - One(WaitingOn(pcs[p], c))
  {
    hide Signalling, WaitingOn;
    WakeKeepsSets(pcs, w);
    var m := Wake(pcs, w);
    MoveOne(m, p, pc);
    assert Signalling(m[p]) == Signalling(pcs[p]) == (p in Signallers(pcs));
    SizeAfter(Signallers(pcs), p, Signalling(pc));
    forall c: nat
      ensures |Waiters(m[p := pc], c)| == |Waiters(pcs, c)| + One(WaitingOn(pc, c)) - One(WaitingOn(pcs[p], c))
    {
      assert WaitingOn(m[p], c) == WaitingOn(pcs[p], c) == (p in Waiters(pcs, c));
      SizeAfter(Waiters(pcs, c), p, WaitingOn(pc, c));
    }
  }

  /** The counters follow the sets when they change by the same amounts. */
  lemma CountsFollow(s: State, s': State, w: Woken, p: nat, pc: Pc)
    requires CountsOk(s) && p < |s.pcs| && s'.pcs == Wake(s.pcs, w)[p := pc] && |s'.counts| == |s.counts|
    requires s'.nextCount == s.nextCount + One(Signalling(pc)) - One(Signalling(s.pcs[p]))
    requires forall c: nat :: c < |s.counts| ==>
               s'.counts[c] == s.counts[c] + One(WaitingOn(pc, c)) - One(WaitingOn(s.pcs[p], c))
    ensures CountsOk(s')
  {
    CountsAfter(s.pcs, w, p, pc);
  }

  /** The process is counted where it was. */
  ghost predicate CountedAlike(pc: Pc, pc': Pc) {
    Signalling(pc) == Signalling(pc') && forall c: nat :: WaitingOn(pc, c) == WaitingOn(pc', c)
  }

  lemma GiveKeepsCounts(s: State, p: nat, x: SemId, pc: Pc)
    requires CountsOk(s) && p < |s.pcs| && x in s.sems && CountedAlike(s.pcs[p], pc)
    ensures CountsOk(Give(s, p, x, pc))
  {
    hide CountsOk;
    CountsFollow(s, Give(s, p, x, pc), Up(s.sems[x]).1, p, pc);
  }

  lemma TakeKeepsCounts(s: State, p: nat, x: SemId)
    requires CountsOk(s) && p < |s.pcs| && x in s.sems
    requires CountedAlike(s.pcs[p], Granted(x)) && CountedAlike(s.pcs[p], Queued(x))
    ensures CountsOk(Take(s, p, x))
  {
    hide CountsOk;
    CountsFollow(s, Take(s, p, x), Nobody, p, Take(s, p, x).pcs[p]);
  }

  /** A statement that touches no semaphore counts what it moves. */
  lemma MoveKeepsCounts(s: State, p: nat, a: Action)
    requires Typed(s) && CountsOk(s) && Enabled(s, p, a)
    requires a.EnterResume? || a.SignalBegin? || a.SignalResume? || a.WaitBegin? || a.WaitResume?
    ensures CountsOk(Step(s, p, a))
  {
    assert PcTyped(s.pcs[p], |s.counts|);
    hide CountsOk, Typed;
    var s' := Step(s, p, a);
    CountsFollow(s, s', Nobody, p, s'.pcs[p]);
  }

  lemma StepKeepsCounts(s: State, p: nat, a: Action)
    requires Typed(s) && CountsOk(s) && Enabled(s, p, a)
    ensures CountsOk(Step(s, p, a))
  {
    assert PcTyped(s.pcs[p], |s.counts|);
    hide CountsOk, Typed, Give, Take;
    match a {
      case Enter => TakeKeepsCounts(s, p, Mutex);
      case SignalPost => GiveKeepsCounts(s, p, CvSem(s.pcs[p].c), SignalPosted);
      case SignalDown => TakeKeepsCounts(s, p, Next);
      case WaitRelease => GiveKeepsCounts(s, p, ReleaseTo(s), WaitReleased(s.pcs[p].c));
      case WaitDown => TakeKeepsCounts(s, p, CvSem(s.pcs[p].c));
      case Leave => GiveKeepsCounts(s, p, ReleaseTo(s), Outside);
      case _ => MoveKeepsCounts(s, p, a);
    }
  }

  /** The heart of the exit protocol: whoever raised a counter and has given the
      baton away is still there to take it back. */
  lemma StepKeepsClaims(s: State, p: nat, a: Action, b: Place)
    requires InvAt(s, b) && Enabled(s, p, a)
    ensures Claimed(Step(s, p, a), NextPlace(s, p, a, b))
  {
    hide WellFormed;
    assert PcTyped(s.pcs[p], |s.counts|);
    StepKeepsBaton(s, p, a, b);
  }

  lemma StepKeeps(s: State, p: nat, a: Action, b: Place)
    requires InvAt(s, b) && Enabled(s, p, a)
    ensures InvAt(Step(s, p, a), NextPlace(s, p, a, b))
  {
    StepKeepsBaton(s, p, a, b);
    StepKeepsCounts(s, p, a);
    StepKeepsClaims(s, p, a, b);
  }

  lemma InitOk(ncv: nat, nproc: nat)
    ensures InvAt(Init(ncv, nproc), In(Mutex))
  {
    var s := Init(ncv, nproc);
    forall x
      ensures x in s.sems <==> IsSem(s, x)
    {
      if x.CvSem? && x.c < ncv {
        assert CvSem(x.c) in s.sems;
      }
    }
    assert Signallers(s.pcs) == {};
    assert forall c: nat :: Waiters(s.pcs, c) == {};
  }

  // ----- every process runs its code in order -----

  /** Inside the monitor a process may signal or wait on any condition variable, or leave. */
  predicate Free(b: Action, ncv: nat) {
    b.Leave? || (b.SignalBegin? && b.c < ncv) || (b.WaitBegin? && b.c < ncv)
  }

  /** What comes after `a` in the code of the monitor; `waited` says whether somebody waited on the variable of a
      signal. */
  predicate MayFollow(a: Action, waited: bool, b: Action, ncv: nat) {
    match a
    case Enter => b.EnterResume?
    case EnterResume => Free(b, ncv)
    case SignalBegin(_) => if waited then b.SignalPost? else Free(b, ncv)
    case SignalPost => b.SignalDown?
    case SignalDown => b.SignalResume?
    case SignalResume => Free(b, ncv)
    case WaitBegin(_) => b.WaitRelease?
    case WaitRelease => b.WaitDown?
    case WaitDown => b.WaitResume?
    case WaitResume => Free(b, ncv)
    case Leave => b.Enter?
  }

  /** The semaphore a process takes by a step. */
  ghost function Taken(s: State, p: nat, a: Action): SemId
    requires Enabled(s, p, a) && Typed(s) && (a.Enter? || a.SignalDown? || a.WaitDown?)
    ensures Taken(s, p, a) in s.sems
  {
    assert PcTyped(s.pcs[p], |s.counts|);
    if a.Enter? then Mutex else if a.SignalDown? then Next else CvSem(s.pcs[p].c)
  }

  /** After a step its process is asleep exactly when it found a semaphore without units, and otherwise may do exactly
      what comes next in the code. */
  lemma CodeInOrder(s: State, p: nat, a: Action, b: Action)
    requires Inv(s) && Typed(s) && Enabled(s, p, a)
    ensures var r := Step(s, p, a);
            && (r.pcs[p].Queued? <==> (a.Enter? || a.SignalDown? || a.WaitDown?) && s.sems[Taken(s, p, a)].value == 0)
            && (Enabled(r, p, b) <==>
                  !r.pcs[p].Queued? && MayFollow(a, a.SignalBegin? && Waiters(s.pcs, a.c) != {}, b, |s.counts|))
  {
    hide BatonAt, QueuesOk, Claimed;
    var at :| InvAt(s, at);
    assert PcTyped(s.pcs[p], |s.counts|);
    if a.SignalBegin? {
      assert s.counts[a.c] == |Waiters(s.pcs, a.c)|;
    }
  }

  /** For every other process nothing changes, unless the step wakes it: then it goes on where it fell asleep. */
  lemma OthersInOrder(s: State, p: nat, a: Action, q: nat, b: Action)
    requires Typed(s) && Enabled(s, p, a) && q < |s.pcs| && q != p
    ensures var r := Step(s, p, a);
            if s.pcs[q].Queued? && !r.pcs[q].Queued? then
              Enabled(r, q, b) <==> (match s.pcs[q].x
                                     case Mutex => b.EnterResume?
                                     case Next => b.SignalResume?
                                     case CvSem(_) => b.WaitResume?)
            else Enabled(r, q, b) <==> Enabled(s, q, b)
  {
    StepOthers(s, p, a, q);
  }

  lemma BeginsOutside(ncv: nat, nproc: nat, p: nat, b: Action)
    ensures Enabled(Init(ncv, nproc), p, b) <==> p < nproc && b.Enter?
  {
  }

  // ----- whole runs -----

  ghost predicate Follows(s: State, s': State) {
    Typed(s) && exists p: nat, a :: Enabled(s, p, a) && s' == Step(s, p, a)
  }

  /** An interleaving of any length of `nproc` processes from the initial state. */
  ghost predicate Run(ncv: nat, nproc: nat, tr: seq<State>) {
    && |tr| > 0 && tr[0] == Init(ncv, nproc)
    && forall i :: 0 <= i < |tr| - 1 ==> Follows(tr[i], tr[i + 1])
  }

  lemma {:induction false} RunInv(ncv: nat, nproc: nat, tr: seq<State>, i: nat)
    requires Run(ncv, nproc, tr) && i < |tr|
    ensures Inv(tr[i]) && |tr[i].pcs| == nproc && |tr[i].counts| == ncv
  {
    if i == 0 {
      InitOk(ncv, nproc);
    } else {
      RunInv(ncv, nproc, tr, i - 1);
      var b :| InvAt(tr[i - 1], b);
      assert Follows(tr[i - 1], tr[i - 1 + 1]);
      var p: nat, a :| Enabled(tr[i - 1], p, a) && tr[i] == Step(tr[i - 1], p, a);
      StepKeeps(tr[i - 1], p, a, b);
    }
  }

  /** In every run at most one process is between taking and giving up the monitor. */
  lemma MutualExclusion(ncv: nat, nproc: nat, tr: seq<State>, i: nat, p: nat, q: nat)
    requires Run(ncv, nproc, tr) && i < |tr| && p < nproc && q < nproc
    ensures |tr[i].pcs| == nproc
    ensures Holds(tr[i].pcs[p]) && Holds(tr[i].pcs[q]) ==> p == q
  {
    RunInv(ncv, nproc, tr, i);
  }

  /** A process that can act on the baton in its next step. */
  ghost predicate CanCarry(s: State, p: nat) {
    && p < |s.pcs|
    && (|| Holds(s.pcs[p])
        || (s.pcs[p].SignalPosted? && Next in s.sems && s.sems[Next].value > 0)
        || (s.pcs[p].WaitReleased? && CvSem(s.pcs[p].c) in s.sems && s.sems[CvSem(s.pcs[p].c)].value > 0))
  }

  ghost predicate Idle(s: State) {
    && Mutex in s.sems && s.sems[Mutex] == Sem(1, []) && s.nextCount == 0
    && forall p :: 0 <= p < |s.pcs| ==> !Signalling(s.pcs[p]) && s.pcs[p] != Queued(Mutex)
  }

  /** The baton is never lost: the monitor is idle with no signaller suspended
      and nobody queued to enter, or some process is able to move the baton. */
  lemma BatonNeverLost(ncv: nat, nproc: nat, tr: seq<State>, i: nat)
    requires Run(ncv, nproc, tr) && i < |tr|
    ensures Idle(tr[i]) || exists p :: CanCarry(tr[i], p)
  {
    RunInv(ncv, nproc, tr, i);
    var s := tr[i];
    var b :| InvAt(s, b);
    if b.With? {
      assert CanCarry(s, b.p);
    } else if b.x == Next {
      assert Signallers(s.pcs) != {};
      var p :| p in Signallers(s.pcs);
      assert !Asleep(s, p, Next);
      assert CanCarry(s, p);
    } else if b.x.CvSem? {
      assert Waiters(s.pcs, b.x.c) != {};
      var p :| p in Waiters(s.pcs, b.x.c);
      assert !Asleep(s, p, b.x);
      assert CanCarry(s, p);
    } else {
      assert Signallers(s.pcs) == {};
      forall p: nat | p < |s.pcs|
        ensures !Signalling(s.pcs[p]) && s.pcs[p] != Queued(Mutex)
      {
        assert p !in Signallers(s.pcs);
        assert !Asleep(s, p, Mutex);
      }
    }
  }

  /** The counters are exact in every run. */
  lemma CountersExact(ncv: nat, nproc: nat, tr: seq<State>, i: nat, c: nat)
    requires Run(ncv, nproc, tr) && i < |tr| && c < ncv
    ensures |tr[i].counts| == ncv
    ensures tr[i].nextCount == |Signallers(tr[i].pcs)| && tr[i].counts[c] == |Waiters(tr[i].pcs, c)|
  {
    RunInv(ncv, nproc, tr, i);
  }

  /** The baton is on its way from a signaller to a waiter of `c`. */
  ghost predicate Handing(s: State, c: nat) {
    || (CvSem(c) in s.sems && s.sems[CvSem(c)].value > 0)
    || exists p :: 0 <= p < |s.pcs| && s.pcs[p] == Granted(CvSem(c))
  }

  /** Hoare's rule.  Once a signaller has posted `c`, no process runs in the
      monitor before a process that was waiting on `c` does. */
  lemma HandOff(s: State, p: nat, a: Action)
    requires Inv(s) && Enabled(s, p, a)
    ensures a.SignalPost? ==> Handing(Step(s, p, a), s.pcs[p].c)
    ensures forall c: nat :: Handing(s, c) ==>
              && (forall q :: 0 <= q < |s.pcs| ==> !s.pcs[q].Inside?)
              && (Handing(Step(s, p, a), c) || (a.WaitResume? && s.pcs[p] == Granted(CvSem(c))))
  {
    var b :| InvAt(s, b);
    var s' := Step(s, p, a);
    StepKeeps(s, p, a, b);
    var b' := NextPlace(s, p, a, b);
    if a.SignalPost? {
      HandingPlace(s', b', s.pcs[p].c);
      UpUnqueues(s.sems[CvSem(s.pcs[p].c)]);
    }
    forall c: nat | Handing(s, c)
      ensures forall q :: 0 <= q < |s.pcs| ==> !s.pcs[q].Inside?
      ensures Handing(s', c) || (a.WaitResume? && s.pcs[p] == Granted(CvSem(c)))
    {
      HandingPlace(s, b, c);
      HandingPlace(s', b', c);
    }
  }

  lemma HandingPlace(s: State, b: Place, c: nat)
    requires InvAt(s, b)
    ensures Handing(s, c) <==> b == In(CvSem(c)) || (b.With? && s.pcs[b.p] == Granted(CvSem(c)))
  {
  }

  /** A step moves its own process and at most wakes one other. */
  lemma StepOthers(s: State, p: nat, a: Action, q: nat)
    requires Typed(s) && Enabled(s, p, a) && q < |s.pcs| && q != p
    ensures var pc := Step(s, p, a).pcs[q];
            pc == s.pcs[q] || (s.pcs[q].Queued? && pc == Granted(s.pcs[q].x))
  {
  }

  /** Only a signaller starts a hand-off. */
  lemma HandingStarts(s: State, p: nat, a: Action, c: nat)
    requires Inv(s) && Enabled(s, p, a) && Handing(Step(s, p, a), c) && !Handing(s, c)
    ensures a.SignalPost? && s.pcs[p] == SignalPosting(c)
  {
    hide CountsOk, Claimed, Handing;
    var b :| InvAt(s, b);
    assert PcTyped(s.pcs[p], |s.counts|);
    StepKeeps(s, p, a, b);
    HandingPlace(s, b, c);
    HandingPlace(Step(s, p, a), NextPlace(s, p, a, b), c);
    match a {
      case SignalPost => UpUnqueues(s.sems[CvSem(s.pcs[p].c)]);
      case WaitRelease => UpUnqueues(s.sems[ReleaseTo(s)]);
      case Leave => UpUnqueues(s.sems[ReleaseTo(s)]);
      case _ =>
    }
  }
}
