/**
 Dining philosophers over plain semaphores: one mutex for the state array and
 one private semaphore per philosopher.
 */
module SemaphorePhilosophers {
  import opened Semaphores
  import opened Table

  datatype Site =
    | Resting                        // put_forks has returned
    | MutexQueued(put: bool)         // asleep in down(mutex) of take_forks or put_forks
    | Entered(put: bool)             // past down(mutex), own state not yet written
    | Test(call: Call, stage: Stage)
    | Post(call: Call)               // about to up(s[t]) of the philosopher it gave the forks
    | Leave(put: bool)               // about to up(mutex)
    | TakeWait                       // about to down(s[i])
    | SemQueued                      // asleep in down(s[i])
    | Dining                         // take_forks has returned

  datatype State = State(mutex: Sem, own: seq<Sem>, st: seq<Phil>, at: seq<Site>)

  predicate Sized(s: State) {
    |s.st| >= 2 && |s.at| == |s.st| && |s.own| == |s.st|
  }

  function Init(n: nat): (s: State)
    requires n >= 2
    ensures Sized(s)
  {
    State(Sem(1, []), seq(n, _ => Sem(0, [])), seq(n, _ => Thinking), seq(n, _ => Resting))
  }

  function AfterTest(call: Call): Site {
    match call
    case Self => Leave(false)
    case ToLeft => Test(ToRight, ReadOwn)
    case ToRight => Leave(true)
  }

  predicate Enabled(s: State, i: nat) {
    Sized(s) && i < |s.st| && !s.at[i].MutexQueued? && !s.at[i].SemQueued?
  }

  /** A woken process goes on after its down. */
  function Woke(site: Site): Site {
    match site
    case MutexQueued(put) => Entered(put)
    case SemQueued => Dining
    case _ => site
  }

  function Wake(at: seq<Site>, w: Woken): (r: seq<Site>)
    ensures |r| == |at|
  {
    if w.Process? && w.id < |at| then at[w.id := Woke(at[w.id])] else at
  }

  function Lock(s: State, i: nat, put: bool): (r: State)
    requires Sized(s) && i < |s.st|
  {
    var (sem, taken) := Down(s.mutex, i);
    s.(mutex := sem, at := s.at[i := if taken then Entered(put) else MutexQueued(put)])
  }

  function Step(s: State, i: nat): (r: State)
    requires Enabled(s, i)
    ensures Sized(r) && |r.st| == |s.st|
  {
    match s.at[i]
    case Resting => Lock(s, i, false)
    case Dining => Lock(s, i, true)
    case Entered(put) =>
      s.(st := s.st[i := if put then Thinking else Hungry],
         at := s.at[i := Test(if put then ToLeft else Self, ReadOwn)])
    case Test(call, stage) =>
      var t := Target(i, call, |s.st|);
      if !Passes(s.st, t, stage) then s.(at := s.at[i := AfterTest(call)])
      else if stage.WriteEating? then s.(st := s.st[t := Eating], at := s.at[i := Post(call)])
      else s.(at := s.at[i := Test(call, NextStage(stage))])
    case Post(call) =>
      var t := Target(i, call, |s.st|);
      var (sem, woken) := Up(s.own[t]);
      s.(own := s.own[t := sem], at := Wake(s.at, woken)[i := AfterTest(call)])
    case Leave(put) =>
      var (sem, woken) := Up(s.mutex);
      s.(mutex := sem, at := Wake(s.at, woken)[i := if put then Resting else TakeWait])
    case TakeWait =>
      var (sem, taken) := Down(s.own[i], i);
      s.(own := s.own[i := sem], at := s.at[i := if taken then Dining else SemQueued])
    case _ => s
  }

  // ----- every call comes to its end -----

  /** Inside `take_forks`. */
  predicate Taking(site: Site) {
    match site
    case MutexQueued(put) => !put
    case Entered(put) => !put
    case Test(call, _) => call.Self?
    case Post(call) => call.Self?
    case Leave(put) => !put
    case TakeWait => true
    case SemQueued => true
    case _ => false
  }

  /** Inside `put_forks`. */
  predicate Putting(site: Site) {
    !Taking(site) && !site.Resting? && !site.Dining?
  }

  /** How many steps a call may still take. */
  function StepsLeft(site: Site): nat {
    match site
    case MutexQueued(put) => if put then 14 else 11
    case Entered(put) => if put then 13 else 10
    case Test(call, stage) => StagesLeft(stage) + (match call case Self => 6 case ToLeft => 9 case ToRight => 3)
    case Post(call) => (match call case Self => 5 case ToLeft => 8 case ToRight => 2)
    case Leave(put) => if put then 1 else 4
    case TakeWait => 3
    case SemQueued => 1
    case _ => 0
  }

  /** A philosopher that takes forks ends up dining, and one that puts them back resting, after at most so many steps
      of its own, whatever the others do. */
  lemma CallsEnd(s: State, i: nat)
    requires Enabled(s, i)
    ensures var site, after := s.at[i], Step(s, i).at[i];
            && (site.Resting? ==> Taking(after)) && (site.Dining? ==> Putting(after))
            && (Taking(site) ==> after.Dining? || (Taking(after) && StepsLeft(after) < StepsLeft(site)))
            && (Putting(site) ==> after.Resting? || (Putting(after) && StepsLeft(after) < StepsLeft(site)))
  {
  }

  /** The steps of others move a philosopher only by waking it, on in its call. */
  lemma OthersMove(s: State, i: nat, j: nat)
    requires Inv(s) && Enabled(s, i) && j < |s.st| && j != i
    ensures var site, after := s.at[j], Step(s, i).at[j];
            || after == site
            || (site.MutexQueued? && after == Entered(site.put))
            || (site.SemQueued? && after.Dining?)
  {
  }

  // ----- the invariant -----

  /** Program points inside the critical section. */
  predicate Holds(site: Site) {
    site.Entered? || site.Test? || site.Post? || site.Leave?
  }

  datatype Place = Free | HeldBy(p: nat)

  /** The mutex is free, or exactly one philosopher is in the critical section;
      its queue lists exactly the sleepers. */
  ghost predicate MutexAt(s: State, b: Place) {
    && WellFormed(s.mutex) && s.mutex.value == (if b.Free? then 1 else 0)
    && (forall p: nat :: p in s.mutex.queue <==> p < |s.at| && s.at[p].MutexQueued?)
    && (forall p: nat :: p < |s.at| ==> (Holds(s.at[p]) <==> b == HeldBy(p)))
    && (b.HeldBy? ==> b.p < |s.at|)
  }

  ghost predicate MutexOk(s: State) {
    exists b :: MutexAt(s, b)
  }

  predicate Local(s: State, i: nat)
    requires Sized(s) && i < |s.st|
  {
    var own := s.st[i];
    match s.at[i]
    case Resting => own.Thinking?
    case Dining => own.Eating?
    case MutexQueued(put) => own == if put then Eating else Thinking
    case Entered(put) => own == if put then Eating else Thinking
    case Test(call, stage) => own == (if call.Self? then Hungry else Thinking)
         && Seen(s.st, Target(i, call, |s.st|), stage)
    case Post(call) => (if call.Self? then own.Eating? else own.Thinking?) && s.st[Target(i, call, |s.st|)].Eating?
    case Leave(put) => if put then own.Thinking? else !own.Thinking?
    case TakeWait => !own.Thinking?
    case SemQueued => !own.Thinking?
  }

  predicate Notifying(s: State, k: nat, i: nat)
    requires Sized(s)
  {
    k < |s.st| && s.at[k].Post? && Target(k, s.at[k].call, |s.st|) == i
  }

  /** Between its test and its meal. */
  predicate Waiting(site: Site) {
    site == Leave(false) || site.TakeWait? || site.SemQueued? || site == Post(Self)
  }

  /** The private semaphore holds at most one unit; it holds one exactly for an
      eating philosopher that has not collected it, and otherwise the unit is
      about to be posted. */
  ghost predicate OwnOk(s: State, i: nat)
    requires Sized(s) && i < |s.st|
  {
    && s.own[i].queue == (if s.at[i].SemQueued? then [i] else [])
    && s.own[i].value <= 1
    && (s.own[i].value == 1 ==> s.st[i].Eating? && (s.at[i] == Leave(false) || s.at[i].TakeWait?))
    && (s.own[i].value == 1 ==> forall k: nat :: !Notifying(s, k, i))
    && (Waiting(s.at[i]) && s.st[i].Eating? && s.own[i].value == 0 ==> exists k: nat :: Notifying(s, k, i))
    && (forall k: nat :: Notifying(s, k, i) ==> Waiting(s.at[i]))
  }

  function Pending(site: Site, i: nat, n: nat): set<nat>
    requires n >= 2 && i < n
  {
    match site
    case Test(Self, _) => {i}
    case Test(ToLeft, _) => {Left(i, n), Right(i, n)}
    case Test(ToRight, _) => {Right(i, n)}
    case Post(ToLeft) => {Right(i, n)}
    case _ => {}
  }

  predicate Excused(s: State, j: nat)
    requires Sized(s)
  {
    exists i: nat :: i < |s.st| && j in Pending(s.at[i], i, |s.st|)
  }

  ghost predicate NoneForgotten(s: State)
    requires Sized(s)
  {
    forall j: nat :: j < |s.st| && s.st[j].Hungry? ==> Blocked(s.st, j) || Excused(s, j)
  }

  ghost predicate Inv(s: State) {
    && Sized(s) && MutexOk(s)
    && (forall i: nat :: i < |s.st| ==> Local(s, i) && OwnOk(s, i))
    && ForksExclusive(s.st) && NoneForgotten(s)
  }

  // ----- every step keeps it -----

  lemma LockKeeps(s: State, i: nat, put: bool, b: Place)
    requires Sized(s) && i < |s.st| && MutexAt(s, b) && !Holds(s.at[i]) && !s.at[i].MutexQueued?
    ensures MutexAt(Lock(s, i, put), if b.Free? then HeldBy(i) else b)
  {
    DownQueues(s.mutex, i);
  }

  lemma UnlockKeeps(s: State, i: nat, b: Place)
    requires Enabled(s, i) && MutexAt(s, b) && s.at[i].Leave?
    ensures MutexAt(Step(s, i), if s.mutex.queue == [] then Free else HeldBy(s.mutex.queue[0]))
  {
    UpUnqueues(s.mutex);
    assert b == HeldBy(i);
    if s.mutex.queue != [] {
      assert s.mutex.queue[0] in s.mutex.queue;
    }
  }

  /** Steps on other semaphores and on the state array leave the mutex alone. */
  lemma ElsewhereKeeps(s: State, r: State, b: Place)
    requires MutexAt(s, b) && r.mutex == s.mutex && |r.at| == |s.at|
    requires forall p: nat :: p < |s.at| ==>
               Holds(r.at[p]) == Holds(s.at[p]) && r.at[p].MutexQueued? == s.at[p].MutexQueued?
    ensures MutexAt(r, b)
  {
    forall p: nat
      ensures p in r.mutex.queue <==> p < |r.at| && r.at[p].MutexQueued?
    {
      assert p in s.mutex.queue <==> p < |s.at| && s.at[p].MutexQueued?;
    }
  }

  lemma StepKeepsMutex(s: State, i: nat, b: Place)
    requires Sized(s) && MutexAt(s, b) && Enabled(s, i)
    requires s.at[i].Post? ==> OwnOk(s, Target(i, s.at[i].call, |s.st|))
    ensures MutexOk(Step(s, i))
  {
    var r := Step(s, i);
    match s.at[i] {
      case Resting => LockKeeps(s, i, false, b);
      case Dining => LockKeeps(s, i, true, b);
      case Leave(put) => UnlockKeeps(s, i, b);
      case _ => ElsewhereKeeps(s, r, b);
    }
  }

  lemma Alone(s: State, i: nat)
    requires Sized(s) && MutexOk(s) && i < |s.st| && Holds(s.at[i])
    ensures forall k: nat :: k < |s.st| && k != i ==> !Holds(s.at[k])
  {
  }

  /** The state array as seen from another philosopher's program point. */
  lemma LocalOther(s: State, i: nat, k: nat)
    requires Enabled(s, i) && Local(s, i) && k < |s.st| && k != i && Local(s, k)
    requires MutexOk(s)
    requires s.at[i].Post? ==> OwnOk(s, Target(i, s.at[i].call, |s.st|))
    ensures Local(Step(s, i), k)
  {
    var b :| MutexAt(s, b);
    if s.at[i].Leave? && s.mutex.queue != [] {
      assert s.mutex.queue[0] in s.mutex.queue;
    }
  }

  lemma LocalOwn(s: State, i: nat)
    requires Enabled(s, i) && Local(s, i) && OwnOk(s, i)
    ensures Local(Step(s, i), i)
  {
  }

  /** The queue of the mutex never holds a philosopher asleep on its own semaphore. */
  lemma OtherSitesKept(s: State, i: nat, k: nat)
    requires Enabled(s, i) && MutexOk(s) && k < |s.st| && k != i
    requires s.at[i].Post? ==> OwnOk(s, Target(i, s.at[i].call, |s.st|))
    ensures var site := Step(s, i).at[k];
            || site == s.at[k]
            || (s.at[k].MutexQueued? && site == Entered(s.at[k].put))
            || (s.at[k].SemQueued? && site.Dining? && s.at[i].Post? && Target(i, s.at[i].call, |s.st|) == k)
  {
    var b :| MutexAt(s, b);
    if s.at[i].Leave? && s.mutex.queue != [] {
      assert s.mutex.queue[0] in s.mutex.queue;
    }
  }

  /** Nobody but the stepping philosopher starts or stops notifying. */
  lemma NotifyingKept(s: State, i: nat, k: nat, t: nat)
    requires Enabled(s, i) && MutexOk(s) && k != i
    requires s.at[i].Post? ==> OwnOk(s, Target(i, s.at[i].call, |s.st|))
    ensures Notifying(Step(s, i), k, t) <==> Notifying(s, k, t)
  {
    if k < |s.st| {
      OtherSitesKept(s, i, k);
    }
  }

  lemma OwnAfterPost(s: State, i: nat, t: nat)
    requires Inv(s) && Enabled(s, i) && t < |s.st| && s.at[i].Post? && t == Target(i, s.at[i].call, |s.st|)
    ensures OwnOk(Step(s, i), t)
  {
    var r := Step(s, i);
    assert OwnOk(s, t) && Local(s, i) && Local(s, t);
    assert Notifying(s, i, t);
    forall k: nat
      ensures !Notifying(r, k, t)
    {
      if k < |s.st| && k != i {
        Alone(s, i);
        NotifyingKept(s, i, k, t);
      }
    }
  }

  lemma OwnElsewhere(s: State, i: nat, t: nat)
    requires Inv(s) && Enabled(s, i) && t < |s.st| && !(s.at[i].Post? && t == Target(i, s.at[i].call, |s.st|))
    ensures OwnOk(Step(s, i), t)
  {
    var r := Step(s, i);
    assert OwnOk(s, t) && Local(s, i) && Local(s, t);
    if s.at[i].Post? { assert OwnOk(s, Target(i, s.at[i].call, |s.st|)); }
    forall k: nat | k != i
      ensures Notifying(r, k, t) <==> Notifying(s, k, t)
    {
      NotifyingKept(s, i, k, t);
    }
    if t != i { OtherSitesKept(s, i, t); }
    if Holds(s.at[i]) { Alone(s, i); }
    assert Notifying(r, i, t) ==> Waiting(r.at[t]);
  }

  lemma StepKeepsForks(s: State, i: nat)
    requires Enabled(s, i) && Local(s, i) && ForksExclusive(s.st)
    ensures ForksExclusive(Step(s, i).st)
  {
    match s.at[i] {
      case Entered(put) => StopEating(s.st, i, if put then Thinking else Hungry);
      case Test(call, stage) =>
        if stage.WriteEating? { StartEating(s.st, Target(i, call, |s.st|)); }
      case _ =>
    }
  }

  lemma StepForgetsNobody(s: State, i: nat, j: nat)
    requires Enabled(s, i) && Local(s, i)
    requires j < |s.st| && (s.st[j].Hungry? ==> Blocked(s.st, j) || Excused(s, j))
    requires Step(s, i).st[j].Hungry?
    ensures Blocked(Step(s, i).st, j) || j in Pending(Step(s, i).at[i], i, |s.st|)
            || exists k: nat :: k < |s.st| && k != i && j in Pending(s.at[k], k, |s.st|)
  {
    Neighbours(i, |s.st|);
    Neighbours(j, |s.st|);
  }

  lemma StepKeepsNoneForgotten(s: State, i: nat)
    requires Inv(s) && Enabled(s, i)
    ensures NoneForgotten(Step(s, i))
  {
    var r, n := Step(s, i), |s.st|;
    if s.at[i].Post? { assert OwnOk(s, Target(i, s.at[i].call, n)); }
    forall j: nat | j < n && r.st[j].Hungry?
      ensures Blocked(r.st, j) || Excused(r, j)
    {
      StepForgetsNobody(s, i, j);
      if k: nat :| k < n && k != i && j in Pending(s.at[k], k, n) {
        OtherSitesKept(s, i, k);
        assert j in Pending(r.at[k], k, n);
      }
    }
  }

  lemma StepKeeps(s: State, i: nat)
    requires Inv(s) && Enabled(s, i)
    ensures Inv(Step(s, i))
  {
    var b :| MutexAt(s, b);
    if s.at[i].Post? { assert OwnOk(s, Target(i, s.at[i].call, |s.st|)); }
    StepKeepsMutex(s, i, b);
    StepKeepsForks(s, i);
    StepKeepsNoneForgotten(s, i);
    forall k: nat | k < |s.st|
      ensures Local(Step(s, i), k) && OwnOk(Step(s, i), k)
    {
      if k == i { LocalOwn(s, i); } else { LocalOther(s, i, k); }
      if s.at[i].Post? && k == Target(i, s.at[i].call, |s.st|) {
        OwnAfterPost(s, i, k);
      } else {
        OwnElsewhere(s, i, k);
      }
    }
  }

  lemma InitOk(n: nat)
    requires n >= 2
    ensures Inv(Init(n))
  {
    assert MutexAt(Init(n), Free);
  }

  // ----- whole runs -----

  ghost predicate Follows(s: State, s': State) {
    exists i: nat :: Enabled(s, i) && s' == Step(s, i)
  }

  ghost predicate Run(n: nat, tr: seq<State>) {
    && n >= 2 && |tr| > 0 && tr[0] == Init(n)
    && forall i :: 0 <= i < |tr| - 1 ==> Follows(tr[i], tr[i + 1])
  }

  lemma {:induction false} RunInv(n: nat, tr: seq<State>, k: nat)
    requires Run(n, tr) && k < |tr|
    ensures Inv(tr[k]) && |tr[k].st| == n
  {
    if k == 0 {
      InitOk(n);
    } else {
      RunInv(n, tr, k - 1);
      assert Follows(tr[k - 1], tr[k - 1 + 1]);
      var i: nat :| Enabled(tr[k - 1], i) && tr[k] == Step(tr[k - 1], i);
      StepKeeps(tr[k - 1], i);
    }
  }

  /** In every run no two neighbours eat together, and a philosopher that has
      returned from take_forks is eating. */
  lemma Safety(n: nat, tr: seq<State>, k: nat, i: nat)
    requires Run(n, tr) && k < |tr| && i < n
    ensures |tr[k].st| == n && |tr[k].at| == n
    ensures tr[k].st[i].Eating? ==> !tr[k].st[Left(i, n)].Eating? && !tr[k].st[Right(i, n)].Eating?
    ensures tr[k].at[i].Dining? ==> tr[k].st[i].Eating?
  {
    RunInv(n, tr, k);
    assert Local(tr[k], i);
    assert tr[k].st[i].Eating? ==> !Blocked(tr[k].st, i);
  }

  /** Whenever the mutex is free, a hungry philosopher has an eating neighbour
      and one asleep on its semaphore is hungry. */
  lemma NoMissedWakeup(n: nat, tr: seq<State>, k: nat, i: nat)
    requires Run(n, tr) && k < |tr| && i < n && tr[k].mutex.value > 0
    ensures |tr[k].st| == n && |tr[k].at| == n
    ensures tr[k].st[i].Hungry? ==> Blocked(tr[k].st, i)
    ensures tr[k].at[i].SemQueued? ==> tr[k].st[i].Hungry?
  {
    RunInv(n, tr, k);
    assert Local(tr[k], i) && OwnOk(tr[k], i);
  }
}
