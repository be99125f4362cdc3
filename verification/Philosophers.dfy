/**
 Dining philosophers over the monitor.  Every access to the shared state array
 is a step of its own, so the proofs rest on the monitor's mutual exclusion and
 not on the tests being atomic.
 */
module Table {
  datatype Phil = Thinking | Hungry | Eating

  function Left(i: nat, n: nat): (r: nat)
    requires n >= 2 && i < n
    ensures r == if i == 0 then n - 1 else i - 1
  {
    assert i > 0 ==> (i - 1 + n) % n == i - 1;
    (i - 1 + n) % n
  }

  function Right(i: nat, n: nat): (r: nat)
    requires n >= 2 && i < n
    ensures r == if i == n - 1 then 0 else i + 1
  {
    (i + 1) % n
  }

  lemma Neighbours(i: nat, n: nat)
    requires n >= 2 && i < n
    ensures Left(Right(i, n), n) == i && Right(Left(i, n), n) == i
  {
  }

  /** The call of the test routine a philosopher is in: for itself, for its
      left or for its right neighbour. */
  datatype Call = Self | ToLeft | ToRight

  /** The next access of the test: its three reads, then its write. */
  datatype Stage = ReadOwn | ReadLeft | ReadRight | WriteEating

  function StagesLeft(stage: Stage): nat {
    match stage
    case ReadOwn => 3
    case ReadLeft => 2
    case ReadRight => 1
    case WriteEating => 0
  }

  function Target(i: nat, call: Call, n: nat): (t: nat)
    requires n >= 2 && i < n
    ensures t < n
  {
    match call
    case Self => i
    case ToLeft => Left(i, n)
    case ToRight => Right(i, n)
  }

  /** Does the read of this stage let the test go on? */
  predicate Passes(st: seq<Phil>, t: nat, stage: Stage)
    requires |st| >= 2 && t < |st|
  {
    match stage
    case ReadOwn => st[t].Hungry?
    case ReadLeft => !st[Left(t, |st|)].Eating?
    case ReadRight => !st[Right(t, |st|)].Eating?
    case WriteEating => true
  }

  function NextStage(stage: Stage): Stage {
    match stage
    case ReadOwn => ReadLeft
    case ReadLeft => ReadRight
    case _ => WriteEating
  }

  /** What the reads before this stage have established. */
  predicate Seen(st: seq<Phil>, t: nat, stage: Stage)
    requires |st| >= 2 && t < |st|
  {
    && (!stage.ReadOwn? ==> Passes(st, t, ReadOwn))
    && (stage.ReadRight? || stage.WriteEating? ==> Passes(st, t, ReadLeft))
    && (stage.WriteEating? ==> Passes(st, t, ReadRight))
  }

  /** A philosopher who has a neighbour at the forks. */
  predicate Blocked(st: seq<Phil>, i: nat)
    requires |st| >= 2 && i < |st|
  {
    st[Left(i, |st|)].Eating? || st[Right(i, |st|)].Eating?
  }

  /** No two neighbours eat at the same time. */
  ghost predicate ForksExclusive(st: seq<Phil>)
    requires |st| >= 2
  {
    forall i: nat :: i < |st| && st[i].Eating? ==> !Blocked(st, i)
  }

  lemma StartEating(st: seq<Phil>, t: nat)
    requires |st| >= 2 && t < |st| && ForksExclusive(st) && !Blocked(st, t)
    ensures ForksExclusive(st[t := Eating])
  {
    var r := st[t := Eating];
    forall i: nat | i < |st| && r[i].Eating?
      ensures !Blocked(r, i)
    {
      if i != t {
        assert !Blocked(st, i);
      }
    }
  }

  lemma StopEating(st: seq<Phil>, t: nat, v: Phil)
    requires |st| >= 2 && t < |st| && ForksExclusive(st) && v != Eating
    ensures ForksExclusive(st[t := v])
  {
    var r := st[t := v];
    forall i: nat | i < |st| && r[i].Eating?
      ensures !Blocked(r, i)
    {
      assert !Blocked(st, i);
    }
  }
}

module MonitorPhilosophers {
  import opened Table
  import M = Monitor

  datatype Site =
    | Resting                        // outside; put_forks has returned
    | TakeEnter                      // take_forks, up to its first statement
    | Test(call: Call, stage: Stage)
    | Signal(call: Call)             // in cond_signal of the tested philosopher
    | TakeCheck                      // re-reads its own state after the test
    | TakeWait                       // in cond_wait
    | TakeLeave
    | Dining                         // outside; take_forks has returned
    | PutEnter                       // put_forks, up to its first statement
    | PutLeave

  datatype State = State(m: M.State, st: seq<Phil>, at: seq<Site>)

  predicate Sized(s: State) {
    |s.st| >= 2 && |s.at| == |s.st| && |s.m.pcs| == |s.st| && |s.m.counts| == |s.st|
  }

  function Init(n: nat): (s: State)
    requires n >= 2
    ensures Sized(s)
  {
    State(M.Init(n, n), seq(n, _ => Thinking), seq(n, _ => Resting))
  }

  function AfterTest(call: Call): Site {
    match call
    case Self => TakeCheck
    case ToLeft => Test(ToRight, ReadOwn)
    case ToRight => PutLeave
  }

  /** The monitor operation a philosopher performs next, if it performs one. */
  function NextAction(s: State, i: nat): (a: M.Action)
    requires Sized(s) && i < |s.st|
  {
    var pc := s.m.pcs[i];
    match s.at[i]
    case Resting => M.Enter
    case Dining => M.Enter
    case TakeEnter => M.EnterResume
    case PutEnter => M.EnterResume
    case Signal(call) =>
      if pc.SignalPosting? then M.SignalPost
      else if pc.SignalPosted? then M.SignalDown
      else if pc.Granted? then M.SignalResume
      else M.SignalBegin(Target(i, call, |s.st|))
    case TakeWait =>
      if pc.WaitReleasing? then M.WaitRelease
      else if pc.WaitReleased? then M.WaitDown
      else M.WaitResume
    case TakeCheck => M.WaitBegin(i)
    case _ => M.Leave
  }

  /** Is the next statement an access to the state array? */
  predicate Accesses(s: State, i: nat)
    requires Sized(s) && i < |s.st|
  {
    s.m.pcs[i].Inside? &&
    (s.at[i].TakeEnter? || s.at[i].PutEnter? || s.at[i].Test? || (s.at[i].TakeCheck? && s.st[i].Eating?))
  }

  function Access(s: State, i: nat): (r: State)
    requires Sized(s) && i < |s.st| && Accesses(s, i)
  {
    var n := |s.st|;
    match s.at[i]
    case TakeEnter => s.(st := s.st[i := Hungry], at := s.at[i := Test(Self, ReadOwn)])
    case PutEnter => s.(st := s.st[i := Thinking], at := s.at[i := Test(ToLeft, ReadOwn)])
    case TakeCheck => s.(at := s.at[i := TakeLeave])
    case Test(call, stage) =>
      var t := Target(i, call, n);
      if !Passes(s.st, t, stage) then s.(at := s.at[i := AfterTest(call)])
      else if stage.WriteEating? then s.(st := s.st[t := Eating], at := s.at[i := Signal(call)])
      else s.(at := s.at[i := Test(call, NextStage(stage))])
  }

  /** Where a monitor operation leaves the philosopher. */
  function SiteAfter(site: Site, a: M.Action, pc: M.Pc): Site {
    match site
    case Resting => TakeEnter
    case Dining => PutEnter
    case Signal(call) => if pc.Inside? then AfterTest(call) else site
    case TakeCheck => TakeWait
    case TakeWait => if a.WaitResume? then TakeLeave else site
    case TakeLeave => Dining
    case PutLeave => Resting
    case _ => site
  }

  predicate Enabled(s: State, i: nat) {
    Sized(s) && i < |s.st| && (Accesses(s, i) || M.Enabled(s.m, i, NextAction(s, i)))
  }

  function Step(s: State, i: nat): (r: State)
    requires Enabled(s, i) && M.Typed(s.m)
    ensures Sized(r) && |r.st| == |s.st|
  {
    if Accesses(s, i) then Access(s, i)
    else
      var a := NextAction(s, i);
      var m := M.Step(s.m, i, a);
      s.(m := m, at := s.at[i := SiteAfter(s.at[i], a, m.pcs[i])])
  }

  // ----- the invariant -----

  /** The program counter in the monitor fits the call site, and the
      philosopher's own state is what that site has made it. */
  predicate Local(s: State, i: nat)
    requires Sized(s) && i < |s.st|
  {
    var pc, own := s.m.pcs[i], s.st[i];
    match s.at[i]
    case Resting => pc.Outside? && own.Thinking?
    case Dining => pc.Outside? && own.Eating?
    case TakeEnter => (pc == M.Queued(M.Mutex) || pc == M.Granted(M.Mutex) || pc.Inside?) && own.Thinking?
    case PutEnter => (pc == M.Queued(M.Mutex) || pc == M.Granted(M.Mutex) || pc.Inside?) && own.Eating?
    case Test(call, _) => pc.Inside? && own == (if call.Self? then Hungry else Thinking)
    case Signal(call) =>
      var t := Target(i, call, |s.st|);
      && own == (if call.Self? then Eating else Thinking)
      && (|| pc.Inside?
          || (!call.Self? && (pc == M.SignalPosting(t) || pc.SignalPosted? || pc == M.Queued(M.Next)
              || pc == M.Granted(M.Next))))
    case TakeCheck => pc.Inside? && !own.Thinking?
    case TakeWait =>
      && !own.Thinking?
      && (pc == M.WaitReleasing(i) || pc == M.WaitReleased(i) || pc == M.Queued(M.CvSem(i))
         || pc == M.Granted(M.CvSem(i)))
    case TakeLeave => pc.Inside? && own.Eating?
    case PutLeave => pc.Inside? && own.Thinking?
  }

  /** What the reads of a test have established still holds. */
  predicate Observed(s: State, i: nat)
    requires Sized(s) && i < |s.st|
  {
    var n := |s.st|;
    match s.at[i]
    case Test(call, stage) => Seen(s.st, Target(i, call, n), stage)
    case Signal(call) => s.m.pcs[i].Inside? || s.m.pcs[i].SignalPosting? ==> s.st[Target(i, call, n)].Eating?
    case _ => true
  }

  /** The philosophers that `i` has still to test before it leaves the monitor. */
  function Pending(site: Site, i: nat, n: nat): set<nat>
    requires n >= 2 && i < n
  {
    match site
    case Test(Self, _) => {i}
    case Test(ToLeft, _) => {Left(i, n), Right(i, n)}
    case Test(ToRight, _) => {Right(i, n)}
    case Signal(ToLeft) => {Right(i, n)}
    case _ => {}
  }

  predicate Excused(s: State, j: nat)
    requires Sized(s)
  {
    exists i: nat :: i < |s.st| && j in Pending(s.at[i], i, |s.st|)
  }

  /** Nobody goes hungry beside free forks, except while being tested. */
  ghost predicate NoneForgotten(s: State)
    requires Sized(s)
  {
    forall j: nat :: j < |s.st| && s.st[j].Hungry? ==> Blocked(s.st, j) || Excused(s, j)
  }

  /** Philosopher `i` has given `c` the forks and is about to signal it. */
  predicate Notifying(s: State, i: nat, c: nat)
    requires Sized(s)
  {
    && i < |s.st| && s.at[i].Signal? && Target(i, s.at[i].call, |s.st|) == c
    && (s.m.pcs[i].Inside? || s.m.pcs[i].SignalPosting?)
  }

  /** A philosopher given the forks in its sleep is being woken. */
  ghost predicate BeingWoken(s: State, c: nat)
    requires Sized(s) && c < |s.st|
  {
    s.at[c].TakeWait? && s.st[c].Eating? ==> M.Handing(s.m, c) || exists i: nat :: Notifying(s, i, c)
  }

  ghost predicate Inv(s: State) {
    && Sized(s) && M.Inv(s.m)
    && (forall i: nat :: i < |s.st| ==> Local(s, i))
    && (forall i: nat :: i < |s.st| ==> Observed(s, i))
    && (forall c: nat :: c < |s.st| && M.Handing(s.m, c) ==> s.st[c].Eating?)
    && (forall c: nat :: c < |s.st| ==> BeingWoken(s, c))
    && ForksExclusive(s.st)
    && NoneForgotten(s)
  }

  // ----- every call comes to its end -----

  /** Inside `take_forks`. */
  predicate Taking(site: Site) {
    match site
    case TakeEnter => true
    case Test(call, _) => call.Self?
    case Signal(call) => call.Self?
    case TakeCheck => true
    case TakeWait => true
    case TakeLeave => true
    case _ => false
  }

  /** Inside `put_forks`. */
  predicate Putting(site: Site) {
    !Taking(site) && !site.Resting? && !site.Dining?
  }

  /** The statements of the call that are still to come. */
  function StatementsLeft(site: Site): nat {
    match site
    case TakeEnter => 8
    case PutEnter => 11
    case Test(call, stage) => StagesLeft(stage) + (match call case Self => 4 case ToLeft => 7 case ToRight => 2)
    case Signal(call) => (match call case Self => 3 case ToLeft => 6 case ToRight => 1)
    case TakeCheck => 2
    case TakeWait => 1
    case _ => 0
  }

  /** The steps of the monitor operation at hand that are still to come. */
  function OperationLeft(site: Site, pc: M.Pc): nat {
    match pc
    case Outside => 0
    case Inside => if site.Signal? then 6 else 1
    case SignalPosting(_) => 5
    case SignalPosted => 4
    case WaitReleasing(_) => 5
    case WaitReleased(_) => 4
    case Queued(_) => 3
    case Granted(_) => 2
  }

  function StepsLeft(site: Site, pc: M.Pc): nat {
    7 * StatementsLeft(site) + OperationLeft(site, pc)
  }

  predicate Nearer(s: State, r: State, i: nat)
    requires Sized(s) && Sized(r) && i < |s.st| && |r.st| == |s.st|
  {
    StepsLeft(r.at[i], r.m.pcs[i]) < StepsLeft(s.at[i], s.m.pcs[i])
  }

  /** Only a philosopher asleep in the monitor cannot go on. */
  lemma AwakeGoesOn(s: State, i: nat)
    requires Inv(s) && i < |s.st|
    ensures Enabled(s, i) <==> !s.m.pcs[i].Queued?
  {
    hide M.Inv, Observed, ForksExclusive, NoneForgotten, BeingWoken;
    assert Local(s, i);
  }

  /** A philosopher that takes forks ends up dining, and one that puts them back resting, after at most so many steps
      of its own, whatever the others do. */
  lemma CallsEnd(s: State, i: nat)
    requires Inv(s) && Enabled(s, i) && M.Typed(s.m)
    ensures var r := Step(s, i);
            && (s.at[i].Resting? ==> Taking(r.at[i])) && (s.at[i].Dining? ==> Putting(r.at[i]))
            && (Taking(s.at[i]) ==> r.at[i].Dining? || (Taking(r.at[i]) && Nearer(s, r, i)))
            && (Putting(s.at[i]) ==> r.at[i].Resting? || (Putting(r.at[i]) && Nearer(s, r, i)))
  {
    hide M.Inv, M.Typed, Observed, ForksExclusive, NoneForgotten, BeingWoken;
    assert Local(s, i);
  }

  /** The steps of others leave a philosopher where it is in its call, and only bring it nearer to the end. */
  lemma OthersMove(s: State, i: nat, j: nat)
    requires Inv(s) && Enabled(s, i) && M.Typed(s.m) && j < |s.st| && j != i
    ensures Step(s, i).at[j] == s.at[j]
    ensures StepsLeft(s.at[j], Step(s, i).m.pcs[j]) <= StepsLeft(s.at[j], s.m.pcs[j])
  {
    hide M.Inv, M.Typed, Observed, ForksExclusive, NoneForgotten, BeingWoken;
    if !Accesses(s, i) {
      M.StepOthers(s.m, i, NextAction(s, i), j);
    }
  }

  // ----- every step keeps it -----

  /** A philosopher holding the baton is the only one. */
  lemma Alone(s: State, i: nat)
    requires Sized(s) && M.Inv(s.m) && i < |s.st| && M.Holds(s.m.pcs[i])
    ensures forall k: nat :: k < |s.st| && k != i ==> !M.Holds(s.m.pcs[k])
    ensures forall c: nat :: M.Handing(s.m, c) ==> s.m.pcs[i] == M.Granted(M.CvSem(c))
  {
    var b :| M.InvAt(s.m, b);
    assert b == M.With(i);
  }

  lemma AccessOwn(s: State, i: nat)
    requires Sized(s) && i < |s.st| && Accesses(s, i) && Local(s, i) && Observed(s, i)
    ensures var r := Access(s, i); Local(r, i) && Observed(r, i)
  {
  }

  lemma AccessOther(s: State, i: nat, k: nat)
    requires Sized(s) && i < |s.st| && Accesses(s, i) && Observed(s, i)
    requires k < |s.st| && k != i && Local(s, k) && !M.Holds(s.m.pcs[k])
    ensures var r := Access(s, i); Local(r, k) && Observed(r, k)
  {
  }

  lemma AccessKeepsForks(s: State, i: nat)
    requires Inv(s) && i < |s.st| && Accesses(s, i)
    ensures ForksExclusive(Access(s, i).st)
  {
    assert Local(s, i) && Observed(s, i);
    match s.at[i] {
      case TakeEnter => StopEating(s.st, i, Hungry);
      case PutEnter => StopEating(s.st, i, Thinking);
      case Test(call, stage) => if stage.WriteEating? { StartEating(s.st, Target(i, call, |s.st|)); }
      case TakeCheck =>
    }
  }

  /** The test a philosopher is in excuses its target until it is decided, and
      giving up the forks puts both neighbours under test. */
  lemma AccessForgetsNobody(s: State, i: nat, j: nat)
    requires Sized(s) && i < |s.st| && Accesses(s, i) && Local(s, i) && Observed(s, i)
    requires j < |s.st| && (s.st[j].Hungry? ==> Blocked(s.st, j) || Excused(s, j))
    requires Access(s, i).st[j].Hungry?
    ensures Blocked(Access(s, i).st, j) || j in Pending(Access(s, i).at[i], i, |s.st|)
            || exists k: nat :: k < |s.st| && k != i && j in Pending(s.at[k], k, |s.st|)
  {
    Neighbours(i, |s.st|);
    Neighbours(j, |s.st|);
  }

  lemma AccessKeepsNoneForgotten(s: State, i: nat)
    requires Inv(s) && i < |s.st| && Accesses(s, i)
    ensures NoneForgotten(Access(s, i))
  {
    var r, n := Access(s, i), |s.st|;
    forall j: nat | j < n && r.st[j].Hungry?
      ensures Blocked(r.st, j) || Excused(r, j)
    {
      AccessForgetsNobody(s, i, j);
      if k: nat :| k < n && k != i && j in Pending(s.at[k], k, n) {
        assert j in Pending(r.at[k], k, n);
      }
    }
  }

  lemma AccessKeepsWaking(s: State, i: nat, c: nat)
    requires Sized(s) && i < |s.st| && Accesses(s, i) && c < |s.st| && BeingWoken(s, c)
    ensures BeingWoken(Access(s, i), c)
  {
    var r := Access(s, i);
    if r.at[c].TakeWait? && r.st[c].Eating? && !M.Handing(r.m, c) {
      if s.st[c].Eating? {
        var k: nat :| Notifying(s, k, c);
        assert Notifying(r, k, c);
      } else {
        assert Notifying(r, i, c);
      }
    }
  }

  lemma AccessKeeps(s: State, i: nat)
    requires Inv(s) && i < |s.st| && Accesses(s, i)
    ensures Inv(Access(s, i))
  {
    Alone(s, i);
    AccessOwn(s, i);
    forall k: nat | k < |s.st| && k != i
      ensures Local(Access(s, i), k) && Observed(Access(s, i), k)
    {
      AccessOther(s, i, k);
    }
    forall c: nat | c < |s.st|
      ensures BeingWoken(Access(s, i), c)
    {
      AccessKeepsWaking(s, i, c);
    }
    AccessKeepsForks(s, i);
    AccessKeepsNoneForgotten(s, i);
  }

  /** Only philosopher `c` ever waits on `cv[c]`, so a philosopher testing itself
      finds nobody to signal. */
  lemma NobodyWaitsOnOwn(s: State, i: nat)
    requires Inv(s) && i < |s.st| && s.m.pcs[i].Inside?
    ensures s.m.counts[i] == 0
  {
    forall p: nat | p < |s.st|
      ensures !M.WaitingOn(s.m.pcs[p], i)
    {
      assert Local(s, p);
    }
    assert M.Waiters(s.m.pcs, i) == {};
  }

  lemma OperationOwn(s: State, i: nat)
    requires Sized(s) && i < |s.st| && M.Typed(s.m) && Enabled(s, i) && !Accesses(s, i)
    requires Local(s, i) && Observed(s, i) && (s.m.pcs[i].Inside? ==> s.m.counts[i] == 0)
    requires s.m.pcs[i] == M.Granted(M.CvSem(i)) ==> s.st[i].Eating?
    ensures var r := Step(s, i); Local(r, i) && Observed(r, i)
    ensures Pending(Step(s, i).at[i], i, |s.st|) == Pending(s.at[i], i, |s.st|)
  {
  }

  lemma OperationOther(s: State, i: nat, k: nat)
    requires Sized(s) && i < |s.st| && M.Typed(s.m) && Enabled(s, i) && !Accesses(s, i)
    requires k < |s.st| && k != i && Local(s, k) && Observed(s, k)
    ensures var r := Step(s, i); Local(r, k) && Observed(r, k)
  {
    M.StepOthers(s.m, i, NextAction(s, i), k);
  }

  lemma OperationHanding(s: State, i: nat, c: nat)
    requires Inv(s) && Enabled(s, i) && !Accesses(s, i) && M.Typed(s.m)
    requires c < |s.st| && M.Handing(Step(s, i).m, c)
    ensures s.st[c].Eating?
  {
    if !M.Handing(s.m, c) {
      M.HandingStarts(s.m, i, NextAction(s, i), c);
      assert Local(s, i) && Observed(s, i);
    }
  }

  /** A waiter counts, so the signaller does not skip it. */
  lemma WaiterCounts(s: State, c: nat)
    requires Inv(s) && c < |s.st| && s.at[c].TakeWait?
    ensures s.m.counts[c] > 0
  {
    assert Local(s, c);
    assert c in M.Waiters(s.m.pcs, c);
  }

  lemma OperationKeepsWaking(s: State, i: nat, c: nat)
    requires Inv(s) && Enabled(s, i) && !Accesses(s, i) && M.Typed(s.m) && c < |s.st|
    ensures BeingWoken(Step(s, i), c)
  {
    hide Observed, ForksExclusive, NoneForgotten, M.Handing, M.Inv;
    var r, a := Step(s, i), NextAction(s, i);
    assert Local(s, i) && Local(s, c) && BeingWoken(s, c);
    if r.at[c].TakeWait? && r.st[c].Eating? {
      assert s.at[c].TakeWait?;
      M.HandOff(s.m, i, a);
      if !M.Handing(s.m, c) {
        var k: nat :| Notifying(s, k, c);
        WaiterCounts(s, c);
        if k != i {
          M.StepOthers(s.m, i, a, k);
          assert Notifying(r, k, c);
        } else if a.SignalBegin? {
          assert Notifying(r, i, c);
        }
      }
    }
  }

  lemma OperationKeeps(s: State, i: nat)
    requires Inv(s) && Enabled(s, i) && !Accesses(s, i) && M.Typed(s.m)
    ensures Inv(Step(s, i))
  {
    var r, n := Step(s, i), |s.st|;
    var b :| M.InvAt(s.m, b);
    M.StepKeeps(s.m, i, NextAction(s, i), b);
    if s.m.pcs[i].Inside? {
      NobodyWaitsOnOwn(s, i);
    }
    assert s.m.pcs[i] == M.Granted(M.CvSem(i)) ==> M.Handing(s.m, i);
    OperationOwn(s, i);
    forall c: nat | c < n
      ensures BeingWoken(r, c)
    {
      OperationKeepsWaking(s, i, c);
    }
    forall k: nat | k < n
      ensures Local(r, k) && Observed(r, k)
    {
      if k != i {
        OperationOther(s, i, k);
      }
    }
    forall c: nat | c < n && M.Handing(r.m, c)
      ensures r.st[c].Eating?
    {
      OperationHanding(s, i, c);
    }
    forall j: nat | j < n && r.st[j].Hungry?
      ensures Blocked(r.st, j) || Excused(r, j)
    {
      if !Blocked(s.st, j) {
        assert Excused(s, j);
        var k: nat :| k < n && j in Pending(s.at[k], k, n);
        assert j in Pending(r.at[k], k, n);
      }
    }
  }

  lemma InitOk(n: nat)
    requires n >= 2
    ensures Inv(Init(n))
  {
    M.InitOk(n, n);
    assert M.InvAt(M.Init(n, n), M.In(M.Mutex));
  }

  // ----- whole runs -----

  ghost predicate Follows(s: State, s': State) {
    M.Typed(s.m) && exists i: nat :: Enabled(s, i) && s' == Step(s, i)
  }

  /** Any interleaving of `n` philosophers, each taking and putting forks for ever. */
  ghost predicate Run(n: nat, tr: seq<State>) {
    && n >= 2 && |tr| > 0 && tr[0] == Init(n)
    && forall i :: 0 <= i < |tr| - 1 ==> Follows(tr[i], tr[i + 1])
  }

  lemma {:induction false} RunInv(n: nat, tr: seq<State>, k: nat)
    requires Run(n, tr) && k < |tr|
    ensures Inv(tr[k]) && |tr[k].st| == n
  {
    if k == 0 {
      InitOk(n);
    } else {
      RunInv(n, tr, k - 1);
      assert Follows(tr[k - 1], tr[k - 1 + 1]);
      var i: nat :| Enabled(tr[k - 1], i) && tr[k] == Step(tr[k - 1], i);
      if Accesses(tr[k - 1], i) {
        AccessKeeps(tr[k - 1], i);
      } else {
        OperationKeeps(tr[k - 1], i);
      }
    }
  }

  /** In every run no two neighbours eat together, and a philosopher that has
      returned from take_forks is eating. */
  lemma Safety(n: nat, tr: seq<State>, k: nat, i: nat)
    requires Run(n, tr) && k < |tr| && i < n
    ensures |tr[k].st| == n && |tr[k].at| == n
    ensures tr[k].st[i].Eating? ==> !tr[k].st[Left(i, n)].Eating? && !tr[k].st[Right(i, n)].Eating?
    ensures tr[k].at[i].Dining? ==> tr[k].st[i].Eating?
  {
    RunInv(n, tr, k);
    assert Local(tr[k], i);
    assert tr[k].st[i].Eating? ==> !Blocked(tr[k].st, i);
  }

  /** No missed wake-up: whenever the monitor is free, every hungry philosopher
      has an eating neighbour, and every philosopher asleep in cond_wait is still hungry. */
  lemma NoMissedWakeup(n: nat, tr: seq<State>, k: nat, i: nat)
    requires Run(n, tr) && k < |tr| && i < n && M.Idle(tr[k].m)
    ensures |tr[k].st| == n && |tr[k].at| == n
    ensures tr[k].st[i].Hungry? ==> Blocked(tr[k].st, i)
    ensures tr[k].at[i].TakeWait? ==> tr[k].st[i].Hungry?
  {
    RunInv(n, tr, k);
    IdleMeansOutside(tr[k]);
    assert Local(tr[k], i) && BeingWoken(tr[k], i);
  }

  /** With the monitor idle no philosopher is in a test or a signal. */
  lemma IdleMeansOutside(s: State)
    requires Inv(s) && M.Idle(s.m)
    ensures forall j: nat :: j < |s.st| ==> !s.at[j].Test? && !s.at[j].Signal?
    ensures forall c: nat :: !M.Handing(s.m, c)
  {
    var b :| M.InvAt(s.m, b);
    forall j: nat | j < |s.st|
      ensures !s.at[j].Test? && !s.at[j].Signal?
    {
      assert Local(s, j);
    }
  }
}
