/**
 Whole runs of processes: fork with the numbers of `get_pid`, exit, wait, kill and sleep, against a reference
 that knows only who is whose child, who is in what state, and which numbers are live.
 */
module ProcRuns {
  import opened ProcLife
  import opened Processes
  import opened ProcTree
  import Pids

  /** `live` are the numbers in use, newest first, without idle. */
  datatype Table = Table(
    kids: Kids,
    status: map<nat, Status>,
    wait: map<nat, Wait>,
    marked: set<nat>,
    live: seq<nat>,
    last: nat)

  datatype Call =
    | Fork(cur: nat)
    | Exit(cur: nat)
    | WaitFor(cur: nat, pid: nat)
    | Kill(pid: nat)
    | Sleep(cur: nat, time: nat)
    | Block(cur: nat)
    | WakeUp(pid: nat)

  datatype Reply = Refused | Done | Number(pid: nat) | TooMany | Freed(child: nat) | Asleep | Childless

  // ----- the reference -----

  predicate Runs(t: Table, p: nat) {
    p in t.kids && p != IDLE && p in t.status && t.status[p] == Runnable && p in t.wait
  }

  /** Calls are made by running processes; timers and semaphores wake those that sleep for them. */
  predicate CanCall(t: Table, c: Call) {
    match c
    case Fork(cur) => Runs(t, cur)
    case Exit(cur) => Runs(t, cur) && cur != INIT
    case WaitFor(cur, _) => Runs(t, cur)
    case Kill(_) => true
    case Sleep(cur, _) => Runs(t, cur)
    case Block(cur) => Runs(t, cur)
    case WakeUp(p) => p in t.kids && p in t.wait && (t.wait[p] == Timer || t.wait[p] == Ksem)
  }

  ghost predicate IsParent(kids: Kids, p: nat, c: nat) { p in kids && c in kids[p] }

  ghost function ParentOf(kids: Kids, c: nat): nat {
    if exists p: nat :: IsParent(kids, p, c) then var p: nat :| IsParent(kids, p, c); p else IDLE
  }

  /** The place of the first dead child, or the number of children. */
  function FirstDead(children: seq<nat>, status: map<nat, Status>): (k: nat)
    ensures k <= |children|
  {
    if children == [] then 0 else if Dead(status, children[0]) then 0 else 1 + FirstDead(children[1..], status)
  }

  /** The place of `pid`, or the number of children. */
  function PlaceOf(children: seq<nat>, pid: nat): (k: nat)
    ensures k <= |children|
  {
    if children == [] then 0 else if children[0] == pid then 0 else 1 + PlaceOf(children[1..], pid)
  }

  /** The child that `do_wait` frees, by its place. */
  function Choice(t: Table, cur: nat, pid: nat): nat
    requires cur in t.kids
  {
    if pid == 0 then FirstDead(t.kids[cur], t.status)
    else if Dead(t.status, pid) then PlaceOf(t.kids[cur], pid) else |t.kids[cur]|
  }

  /** Whether there is a child to wait for. */
  predicate HasChild(t: Table, cur: nat, pid: nat)
    requires cur in t.kids
  {
    if pid == 0 then t.kids[cur] != [] else pid in t.kids[cur]
  }

  ghost function Answer(t: Table, c: Call): Reply {
    if !CanCall(t, c) then Refused else
    match c
    case Fork(_) =>
      if |t.live| + 1 >= Pids.MAX_PROCESS then TooMany
      else Number(Pids.FirstUnused(t.live, Pids.After(t.last), Pids.MAX_PID - 1))
    case Exit(_) => Done
    case WaitFor(cur, pid) =>
      if Choice(t, cur, pid) < |t.kids[cur]| then Freed(t.kids[cur][Choice(t, cur, pid)])
      else if HasChild(t, cur, pid) then Asleep
      else Childless
    case Kill(pid) => if pid in t.kids && pid != IDLE && pid !in t.marked then Done else Refused
    case Sleep(_, time) => if time == 0 then Done else Asleep
    case Block(_) => Asleep
    case WakeUp(_) => Done
  }

  ghost function Exited(t: Table, cur: nat): Table
    requires cur in t.kids && INIT in t.kids && ParentOf(t.kids, cur) in t.wait
  {
    var p := ParentOf(t.kids, cur);
    var s, w := Deaths(t.status, t.wait, cur, p), Awoken(t.wait, p);
    var calls := CallsInit(t.kids[cur], s, w);
    t.(kids := t.kids[cur := []][INIT := Reversed(t.kids[cur]) + t.kids[INIT]],
       status := if calls then s[INIT := Runnable] else s, wait := if calls then w[INIT := Awake] else w)
  }

  function Reaped(t: Table, cur: nat, k: nat): Table
    requires cur in t.kids && k < |t.kids[cur]|
  {
    var c := t.kids[cur][k];
    t.(kids := t.kids[cur := Without(t.kids[cur], k)] - {c}, status := t.status - {c}, wait := t.wait - {c},
       marked := t.marked - {c}, live := Minus(t.live, c))
  }

  function Dozing(t: Table, cur: nat, why: Wait): Table {
    t.(status := t.status[cur := Sleeping], wait := t.wait[cur := why])
  }

  function Woken(t: Table, p: nat): Table {
    t.(status := t.status[p := Runnable], wait := t.wait[p := Awake])
  }

  ghost function After(t: Table, c: Call): Table {
    if !CanCall(t, c) then t else
    match c
    case Fork(cur) =>
      (match Answer(t, c)
       case Number(pid) =>
         Table(t.kids[pid := []][cur := [pid] + t.kids[cur]], t.status[pid := Runnable], t.wait[pid := Awake], t.marked,
               [pid] + t.live, pid)
       case _ => t)
    case Exit(cur) => if INIT in t.kids && ParentOf(t.kids, cur) in t.wait then Exited(t, cur) else t
    case WaitFor(cur, pid) =>
      if Choice(t, cur, pid) < |t.kids[cur]| then Reaped(t, cur, Choice(t, cur, pid))
      else if HasChild(t, cur, pid) then Dozing(t, cur, Child)
      else t
    case Kill(pid) =>
      if Answer(t, c) != Done then t
      else
        var m := t.(marked := t.marked + {pid});
        if pid in t.wait && (t.wait[pid] == Child || t.wait[pid] == Timer) then Woken(m, pid) else m
    case Sleep(cur, time) => if time == 0 then t else Dozing(t, cur, Timer)
    case Block(cur) => Dozing(t, cur, Ksem)
    case WakeUp(p) => Woken(t, p)
  }

  ghost function Answers(t: Table, calls: seq<Call>): seq<Reply>
    decreases |calls|
  {
    if calls == [] then [] else [Answer(t, calls[0])] + Answers(After(t, calls[0]), calls[1..])
  }

  ghost function Final(t: Table, calls: seq<Call>): Table
    decreases |calls|
  {
    if calls == [] then t else Final(After(t, calls[0]), calls[1..])
  }

  /** Idle, and init with number 1. */
  function Boot(): Table {
    Table(map[IDLE := [INIT], INIT := []], map[IDLE := Runnable, INIT := Runnable], map[IDLE := Awake, INIT := Awake],
          {},
          [INIT], INIT)
  }

  // ----- the kernel makes such runs -----

  ghost predicate Good(k: Kernel, pids: Pids.PidAllocator)
    reads k, pids
  {
    k.Valid() && pids.Valid() && pids.procs == k.list
  }

  ghost function See(k: Kernel, pids: Pids.PidAllocator): Table
    reads k, pids
  {
    Table(k.kids, k.status, k.wait, k.exiting, k.list, pids.lastPid)
  }

  lemma Unlisted(k: Kernel, pid: nat)
    requires k.Valid() && pid !in k.list && pid != IDLE
    ensures pid !in k.kids
  {
  }

  method DoFork(k: Kernel, pids: Pids.PidAllocator, c: Call) returns (r: Reply)
    requires Good(k, pids) && c.Fork? && CanCall(See(k, pids), c)
    modifies k, pids
    ensures Good(k, pids) && r == Answer(old(See(k, pids)), c) && See(k, pids) == After(old(See(k, pids)), c)
  {
    hide KernelOk, Pids.FirstUnused;
    var pid := pids.Fork();
    if pid == 0 {
      return TooMany;
    }
    Unlisted(k, pid);
    k.Fork(c.cur, pid);
    return Number(pid);
  }

  /** A process is on the list of one process only. */
  lemma OneParentOf(k: Kernel, c: nat)
    requires k.Valid() && c in k.kids && c != IDLE
    ensures c in k.parent && k.parent[c] in k.kids && IsParent(k.kids, k.parent[c], c)
    ensures forall p: nat :: IsParent(k.kids, p, c) ==> p == k.parent[c]
    ensures ParentOf(k.kids, c) == k.parent[c]
  {
    hide TablesOk, LivesOk, EldersOk, MarksOk;
    ParentIn(k.T(), k.kids, k.born, c);
    forall p: nat | IsParent(k.kids, p, c)
      ensures p == k.parent[c]
    {
      ChildIndex(k.T(), k.kids, k.born, p, c);
    }
  }

  lemma ParentIn(t: Tree, kids: Kids, born: map<nat, nat>, c: nat)
    requires ForestOk(t, kids, Null, born) && c in kids && c != IDLE
    ensures c in t.parent && t.parent[c] in kids && c in kids[t.parent[c]]
  {
    hide LinksOk;
  }

  lemma InitThere(k: Kernel)
    requires k.Valid()
    ensures INIT in k.kids
  {
    hide TablesOk, LivesOk, ForestOk, MarksOk;
    EldersFacts(k.kids, k.status, k.born, k.clock);
  }

  method DoExit(k: Kernel, pids: Pids.PidAllocator, c: Call) returns (r: Reply)
    requires Good(k, pids) && c.Exit? && CanCall(See(k, pids), c)
    modifies k
    ensures Good(k, pids) && r == Answer(old(See(k, pids)), c) && See(k, pids) == After(old(See(k, pids)), c)
  {
    hide KernelOk, OnlyWoken, Reversed, Deaths, Awoken, CallsInit, ParentOf;
    OneParentOf(k, c.cur);
    InitThere(k);
    k.Exit(c.cur);
    return Done;
  }

  lemma {:induction false} FirstDeadAt(children: seq<nat>, status: map<nat, Status>, k: nat)
    requires k <= |children| && FirstOf(children, status, 0, k) && (k < |children| ==> Dead(status, children[k]))
    ensures FirstDead(children, status) == k
  {
    if k > 0 {
      assert !Dead(status, children[0]);
      forall j: nat | j < k - 1
        ensures !Dead(status, children[1..][j])
      {
        assert children[1..][j] == children[j + 1];
      }
      FirstDeadAt(children[1..], status, k - 1);
    }
  }

  lemma {:induction false} PlaceAt(children: seq<nat>, pid: nat, k: nat)
    requires k <= |children| && (forall j: nat :: j < k ==> children[j] != pid)
             && (k < |children| ==> children[k] == pid)
    ensures PlaceOf(children, pid) == k
  {
    if k > 0 {
      assert children[0] != pid;
      forall j: nat | j < k - 1
        ensures children[1..][j] != pid
      {
        assert children[1..][j] == children[j + 1];
      }
      PlaceAt(children[1..], pid, k - 1);
    }
  }

  lemma Chosen(t: Table, cur: nat, pid: nat, k: nat)
    requires cur in t.kids && k < |t.kids[cur]| && Dead(t.status, t.kids[cur][k])
             && (pid != 0 ==> t.kids[cur][k] == pid)
    requires FirstOf(t.kids[cur], t.status, pid, k)
    ensures Choice(t, cur, pid) == k
  {
    if pid == 0 {
      FirstDeadAt(t.kids[cur], t.status, k);
    } else {
      PlaceAt(t.kids[cur], pid, k);
    }
  }

  lemma NoneChosen(t: Table, cur: nat, pid: nat, status: map<nat, Status>)
    requires cur in t.kids && cur in t.status && !Dead(t.status, cur) && status == t.status[cur := Sleeping]
    requires Hopes(t.kids, status, cur, pid) || (if pid == 0 then t.kids[cur] == [] else pid !in t.kids[cur])
    ensures Choice(t, cur, pid) == |t.kids[cur]|
    ensures HasChild(t, cur, pid) <==> !(if pid == 0 then t.kids[cur] == [] else pid !in t.kids[cur])
    ensures Hopes(t.kids, status, cur, pid) ==> HasChild(t, cur, pid)
  {
    var all := t.kids[cur];
    if pid == 0 {
      FirstDeadAt(all, t.status, |all|);
    } else if pid !in all {
      PlaceAt(all, pid, |all|);
    }
  }

  lemma AllListed(k: Kernel)
    requires k.Valid()
    ensures forall p: nat :: p in k.kids && p != IDLE <==> p in k.list
  {
    hide ForestOk, LivesOk, EldersOk, MarksOk;
  }

  method IndexOf(s: seq<nat>, x: nat) returns (i: nat)
    requires x in s
    ensures i < |s| && s[i] == x
  {
    i := 0;
    while s[i] != x
      invariant i < |s| && x !in s[..i]
      decreases |s| - i
    {
      i := i + 1;
    }
  }

  lemma {:induction false} CutOut(s: seq<nat>, x: nat, i: nat)
    requires Pids.Distinct(s) && i < |s| && s[i] == x
    ensures Minus(s, x) == s[..i] + s[i + 1..]
  {
    forall a: nat, b: nat | a < b < |s[1..]|
      ensures s[1..][a] != s[1..][b]
    {
      assert s[1..][a] == s[a + 1] && s[1..][b] == s[b + 1];
    }
    if i > 0 {
      CutOut(s[1..], x, i - 1);
      assert s[0] != x && s[..i] == [s[0]] + s[1..][..i - 1] && s[i + 1..] == s[1..][i..];
    } else {
      Absent(s[1..], x);
    }
  }

  lemma {:induction false} Absent(s: seq<nat>, x: nat)
    requires x !in s
    ensures Minus(s, x) == s
  {
    if s != [] {
      Absent(s[1..], x);
      assert s == [s[0]] + s[1..];
    }
  }

  method DoWait(k: Kernel, pids: Pids.PidAllocator, c: Call) returns (r: Reply)
    requires Good(k, pids) && c.WaitFor? && CanCall(See(k, pids), c)
    modifies k, pids
    ensures Good(k, pids) && r == Answer(old(See(k, pids)), c) && See(k, pids) == After(old(See(k, pids)), c)
  {
    hide KernelOk, Choice, HasChild, Minus, Without, Hopes, FirstOf;
    ghost var t := See(k, pids);
    AllListed(k);
    var out, at := k.Wait(c.cur, c.pid);
    match out {
      case Reaped(child) =>
        Chosen(t, c.cur, c.pid, at);
        assert child in t.kids && child in t.live;
        var i := IndexOf(pids.procs, child);
        CutOut(pids.procs, child, i);
        pids.Reap(i);
        return Freed(child);
      case Slept =>
        NoneChosen(t, c.cur, c.pid, k.status);
        return Asleep;
      case NoChild =>
        NoneChosen(t, c.cur, c.pid, t.status[c.cur := Sleeping]);
        return Childless;
    }
  }

  method DoKill(k: Kernel, pids: Pids.PidAllocator, c: Call) returns (r: Reply)
    requires Good(k, pids) && c.Kill?
    modifies k
    ensures Good(k, pids) && r == Answer(old(See(k, pids)), c) && See(k, pids) == After(old(See(k, pids)), c)
  {
    hide KernelOk;
    AllWaits(k);
    var done := k.Kill(c.pid);
    return if done then Done else Refused;
  }

  lemma AllWaits(k: Kernel)
    requires k.Valid()
    ensures k.status.Keys == k.kids.Keys && k.wait.Keys == k.kids.Keys
    ensures forall p: nat :: p in k.kids && k.wait[p] != Awake ==> !Dead(k.status, p) && k.status[p] == Sleeping
  {
    hide ForestOk, TablesOk, EldersOk, MarksOk, LivesOk;
    LivesFacts(k.kids, k.status, k.wait, k.awaited, Null);
    forall p: nat | p in k.kids && k.wait[p] != Awake
      ensures !Dead(k.status, p) && k.status[p] == Sleeping
    {
      Sleeper(k.kids, k.status, k.wait, k.awaited, p);
    }
  }

  method DoSleep(k: Kernel, pids: Pids.PidAllocator, c: Call) returns (r: Reply)
    requires Good(k, pids) && (c.Sleep? || c.Block? || c.WakeUp?) && CanCall(See(k, pids), c)
    modifies k
    ensures Good(k, pids) && r == Answer(old(See(k, pids)), c) && See(k, pids) == After(old(See(k, pids)), c)
  {
    hide KernelOk;
    AllWaits(k);
    match c {
      case Sleep(cur, time) =>
        k.DoSleep(cur, time);
        return if time == 0 then Done else Asleep;
      case Block(cur) =>
        k.BlockOnSemaphore(cur);
        return Asleep;
      case WakeUp(p) =>
        k.WakeupProc(p, Null, Null);
        return Done;
    }
  }

  method DoCall(k: Kernel, pids: Pids.PidAllocator, c: Call) returns (r: Reply)
    requires Good(k, pids)
    modifies k, pids
    ensures Good(k, pids) && r == Answer(old(See(k, pids)), c) && See(k, pids) == After(old(See(k, pids)), c)
  {
    ghost var t := See(k, pids);
    var can := Callable(k, pids, c);
    if !can {
      return Refused;
    }
    hide Good, Answer, After, See, CanCall;
    match c {
      case Fork(_) => r := DoFork(k, pids, c);
      case Exit(_) => r := DoExit(k, pids, c);
      case WaitFor(_, _) => r := DoWait(k, pids, c);
      case Kill(_) => r := DoKill(k, pids, c);
      case Sleep(_, _) => r := DoSleep(k, pids, c);
      case Block(_) => r := DoSleep(k, pids, c);
      case WakeUp(_) => r := DoSleep(k, pids, c);
    }
  }

  method Callable(k: Kernel, pids: Pids.PidAllocator, c: Call) returns (b: bool)
    requires Good(k, pids)
    ensures b <==> CanCall(See(k, pids), c)
  {
    hide KernelOk;
    AllWaits(k);
    match c {
      case Fork(p) => b := p in k.status && p != IDLE && k.status[p] == Runnable;
      case Exit(p) => b := p in k.status && p != IDLE && p != INIT && k.status[p] == Runnable;
      case WaitFor(p, _) => b := p in k.status && p != IDLE && k.status[p] == Runnable;
      case Kill(_) => b := true;
      case Sleep(p, _) => b := p in k.status && p != IDLE && k.status[p] == Runnable;
      case Block(p) => b := p in k.status && p != IDLE && k.status[p] == Runnable;
      case WakeUp(p) => b := p in k.wait && (k.wait[p] == Timer || k.wait[p] == Ksem);
    }
  }

  // ----- what holds in every state of every run -----

  /** A process that sleeps for a child has one that lives. */
  ghost predicate Awaits(t: Table, p: nat) {
    p in t.kids && exists i: nat :: i < |t.kids[p]| && !Dead(t.status, t.kids[p][i])
  }

  ghost predicate Settled(t: Table, p: nat) {
    && p in t.kids && p in t.status && p in t.wait
    && (t.wait[p] != Awake ==> t.status[p] == Sleeping)
    && (t.wait[p] == Child ==> Awaits(t, p))
    && (t.status[p] == Zombie ==> t.kids[p] == [])
  }

  /** Parents are older than their children, so that the line of parents of any process ends at idle. */
  ghost predicate Older(kids: Kids, born: map<nat, nat>) {
    && kids.Keys <= born.Keys
    && forall p: nat, c: nat :: IsParent(kids, p, c) ==> c in born && born[p] < born[c]
  }

  /** One older parent for every process but idle, sleepers for children with a living child, no orphaned children, and
      live numbers that are distinct, in range and those of the processes there are. */
  ghost predicate Sound(t: Table) {
    && (forall p: nat :: p in t.kids ==> Settled(t, p))
    && (forall c: nat :: c in t.kids && c != IDLE ==> IsParent(t.kids, ParentOf(t.kids, c), c))
    && (forall p: nat, c: nat :: IsParent(t.kids, p, c) ==> c in t.kids && c != IDLE && p == ParentOf(t.kids, c))
    && (exists born: map<nat, nat> :: Older(t.kids, born))
    && Pids.Distinct(t.live) && Pids.InRange(t.live) && (forall p: nat :: p in t.live <==> p in t.kids && p != IDLE)
    && t.marked <= t.kids.Keys && !Dead(t.status, INIT) && INIT in t.kids
  }

  lemma GoodSound(k: Kernel, pids: Pids.PidAllocator)
    requires Good(k, pids)
    ensures Sound(See(k, pids))
  {
    var t := See(k, pids);
    assert t.marked <= t.kids.Keys && !Dead(t.status, INIT) && INIT in t.kids;
    AllListed(k);
    forall p: nat | p in t.kids
      ensures Settled(t, p)
    {
      SettledAt(k, pids, p);
    }
    forall c: nat | c in t.kids && c != IDLE
      ensures IsParent(t.kids, ParentOf(t.kids, c), c)
    {
      OneParentOf(k, c);
    }
    forall p: nat, c: nat | IsParent(t.kids, p, c)
      ensures c in t.kids && c != IDLE && p == ParentOf(t.kids, c)
    {
      ChildIn(k, p, c);
      OneParentOf(k, c);
    }
    assert Older(t.kids, k.born) by {
      forall p: nat, c: nat | IsParent(t.kids, p, c)
        ensures c in k.born && p in k.born && k.born[p] < k.born[c]
      {
        ChildIn(k, p, c);
        OneParentOf(k, c);
        ParentOlder(k.T(), k.kids, k.born, c);
      }
      ParentOlder(k.T(), k.kids, k.born, IDLE);
    }
  }

  lemma ParentOlder(t: Tree, kids: Kids, born: map<nat, nat>, c: nat)
    requires ForestOk(t, kids, Null, born)
    ensures born.Keys == kids.Keys
    ensures c in kids && c != IDLE ==> c in t.parent && t.parent[c] in kids && born[t.parent[c]] < born[c]
  {
    hide LinksOk;
  }

  lemma ChildIn(k: Kernel, p: nat, c: nat)
    requires k.Valid() && IsParent(k.kids, p, c)
    ensures c in k.kids && c != IDLE
  {
    hide TablesOk, LivesOk, EldersOk, MarksOk, LinksOk;
    var i: nat :| i < |k.kids[p]| && k.kids[p][i] == c;
    Row(k.T(), k.kids, Null, Null, p, i);
  }

  lemma SettledAt(k: Kernel, pids: Pids.PidAllocator, p: nat)
    requires k.Valid() && p in k.kids
    ensures Settled(See(k, pids), p)
  {
    hide ForestOk, TablesOk, EldersOk, MarksOk, LivesOk;
    SaneAt(k.kids, k.status, k.wait, k.awaited, Null, p);
    if k.wait[p] == Child {
      var pid := k.awaited[p];
      var i: nat :| i < |k.kids[p]| && (pid != 0 ==> k.kids[p][i] == pid);
      assert !Dead(k.status, k.kids[p][i]);
    }
  }

  /** Any run from boot answers as the reference does, and every state it reaches is sound. */
  method Execute(calls: seq<Call>) returns (log: seq<Reply>, k: Kernel, pids: Pids.PidAllocator)
    ensures log == Answers(Boot(), calls)
    ensures Good(k, pids) && See(k, pids) == Final(Boot(), calls) && Sound(Final(Boot(), calls))
  {
    hide KernelOk, Answer, After, Sound;
    k := new Kernel();
    pids := new Pids.PidAllocator();
    FirstNumber();
    var first := pids.Fork();
    log := [];
    var i: nat := 0;
    assert calls[0..] == calls && See(k, pids) == Boot();
    while i < |calls|
      invariant i <= |calls| && Good(k, pids) && fresh(k) && fresh(pids)
      invariant Answers(Boot(), calls) == log + Answers(See(k, pids), calls[i..])
      invariant Final(Boot(), calls) == Final(See(k, pids), calls[i..])
    {
      assert calls[i..][0] == calls[i] && calls[i..][1..] == calls[i + 1..];
      var r := DoCall(k, pids, calls[i]);
      log := log + [r];
      i := i + 1;
    }
    assert calls[i..] == [];
    GoodSound(k, pids);
  }

  lemma FirstNumber()
    ensures Pids.FirstUnused([], Pids.After(Pids.MAX_PID), Pids.MAX_PID - 1) == INIT
  {
  }
}
