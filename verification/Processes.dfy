/** fork, exit, wait and kill, relinking the process tree in place. */
module Processes {
  import opened ProcLife
  import opened ProcTree
  import Pids

  /** Idle and init never end, and are the two oldest. */
  ghost predicate EldersOk(kids: Kids, status: map<nat, Status>, born: map<nat, nat>, clock: nat) {
    && INIT in kids && IDLE in kids && !Dead(status, INIT) && !Dead(status, IDLE)
    && INIT in born && IDLE in born && born[IDLE] == 0 && born[INIT] == 1
    && (forall p: nat :: p in born ==> born[p] < clock && (p == IDLE || p == INIT || born[p] > 1))
  }

  ghost predicate ForestOk(t: Tree, kids: Kids, stale: Link, born: map<nat, nat>) {
    LinksOk(t, kids, stale, Null) && Rooted(t, kids, born)
  }

  /** Only processes that there are can be marked for their end. */
  ghost predicate MarksOk(exiting: set<nat>, kids: Kids) {
    exiting <= kids.Keys
  }

  lemma Unmarked(exiting: set<nat>, kids: Kids, cur: nat, pid: nat)
    requires MarksOk(exiting, kids) && cur in kids && pid !in kids
    ensures exiting - {pid} == exiting && MarksOk(exiting, kids[pid := []][cur := [pid] + kids[cur]]) && pid !in exiting
  {
  }

  lemma MarkGone(exiting: set<nat>, kids: Kids, cur: nat, k: nat)
    requires MarksOk(exiting, kids) && cur in kids && k < |kids[cur]|
    ensures MarksOk(exiting - {kids[cur][k]}, kids[cur := Without(kids[cur], k)] - {kids[cur][k]})
  {
  }

  lemma MarksMoved(exiting: set<nat>, kids: Kids, c: nat)
    requires MarksOk(exiting, kids) && c in kids && kids[c] != [] && INIT in kids
    ensures MarksOk(exiting, Moved(kids, c))
  {
  }

  function Reversed(s: seq<nat>): seq<nat> {
    if s == [] then [] else Reversed(s[1..]) + [s[0]]
  }

  lemma {:induction false} ReversedAppend(s: seq<nat>, x: nat)
    ensures Reversed(s + [x]) == [x] + Reversed(s)
  {
    if s == [] {
      assert (s + [x])[1..] == [];
    } else {
      ReversedAppend(s[1..], x);
      assert (s + [x])[1..] == s[1..] + [x];
    }
  }

  /** With no children left there is no stale link. */
  lemma Unstale(t: Tree, kids: Kids, born: map<nat, nat>, p: nat, stale: Link)
    requires ForestOk(t, kids, stale, born) && p in kids && kids[p] == [] && (stale == Null || stale == At(p))
    ensures ForestOk(t, kids, Null, born)
  {
    forall q: nat, i: nat | q in kids && i < |kids[q]|
      ensures Linked(t, kids, Null, q, i)
    {
      Row(t, kids, stale, Null, q, i);
    }
  }

  function Moved(kids: Kids, c: nat): Kids
    requires c in kids && kids[c] != [] && INIT in kids
  {
    kids[c := kids[c][1..]][INIT := [kids[c][0]] + kids[INIT]]
  }

  /** The links after the first child of `c` went to init. */
  lemma MoveKeeps(t: Tree, kids: Kids, stale: Link, born: map<nat, nat>, status: map<nat, Status>, clock: nat, c: nat)
    requires ForestOk(t, kids, stale, born) && EldersOk(kids, status, born, clock)
    requires c in kids && c != INIT && c != IDLE && kids[c] != [] && (stale == Null || stale == At(c))
    ensures c in t.cptr && t.cptr[c] == At(kids[c][0]) && kids[c][0] in t.optr && INIT in t.cptr && kids[c][0] in kids
    ensures t.cptr[INIT] == Nth(kids[INIT], 0)
    ensures ForestOk(Pushed(Popped(t, c), INIT, kids[c][0]), Moved(kids, c), At(c), born)
  {
    hide LinksOk, Pushed, Popped;
    PopKeeps(t, kids, c, stale);
    Row(t, kids, stale, Null, c, 0);
    Head(t, kids, stale, Null, INIT);
    PushKeeps(Popped(t, c), kids[c := kids[c][1..]], At(c), INIT, kids[c][0]);
    Elder(t, kids, stale, born, status, clock, c);
    MoveRooted(t, kids, stale, born, c, INIT);
  }

  /** A child of an ordinary process is neither idle nor init, so init is older. */
  lemma Elder(t: Tree, kids: Kids, stale: Link, born: map<nat, nat>, status: map<nat, Status>, clock: nat, c: nat)
    requires ForestOk(t, kids, stale, born) && EldersOk(kids, status, born, clock)
    requires c in kids && c != INIT && c != IDLE && kids[c] != []
    ensures kids[c][0] in born && born[INIT] < born[kids[c][0]]
  {
    hide LinksOk;
    Row(t, kids, stale, Null, c, 0);
  }

  lemma TablesSame(list: seq<nat>, buckets: map<nat, seq<nat>>, kids: Kids, after: Kids)
    requires TablesOk(list, buckets, kids) && after.Keys == kids.Keys
    ensures TablesOk(list, buckets, after)
  {
  }

  function FirstChain(b: nat): seq<nat> {
    if b == Bucket(INIT) then [INIT] else []
  }

  lemma FirstForest()
    ensures ForestOk(Tree(map[INIT := IDLE], map[IDLE := At(INIT), INIT := Null], map[IDLE := Null, INIT := Null],
              map[IDLE := Null, INIT := Null]),
                     map[IDLE := [INIT], INIT := []], Null, map[IDLE := 0, INIT := 1])
  {
    var kids: Kids := map[IDLE := [INIT], INIT := []];
    var t := Tree(map[INIT := IDLE], map[IDLE := At(INIT), INIT := Null], map[IDLE := Null, INIT := Null],
          map[IDLE := Null, INIT := Null]);
    assert Linked(t, kids, Null, IDLE, 0) && Member(kids, Null, IDLE, 0);
    assert Headed(t, kids, IDLE) && Headed(t, kids, INIT);
  }

  lemma FirstTables(buckets: map<nat, seq<nat>>)
    requires forall b: nat :: b < HASH_BUCKETS ==> b in buckets && buckets[b] == FirstChain(b)
    ensures TablesOk([INIT], buckets, map[IDLE := [INIT], INIT := []])
  {
    hide Bucket;
    forall b: nat, p: nat | b < HASH_BUCKETS
      ensures Hashed(buckets, [INIT], b, p)
    {
    }
  }

  lemma FirstLives()
    ensures LivesOk(map[IDLE := [INIT], INIT := []], map[IDLE := Runnable, INIT := Runnable],
              map[IDLE := Awake, INIT := Awake], map[], Null)
    ensures EldersOk(map[IDLE := [INIT], INIT := []], map[IDLE := Runnable, INIT := Runnable],
              map[IDLE := 0, INIT := 1], 2)
  {
    var kids: Kids := map[IDLE := [INIT], INIT := []];
    var status, wait := map[IDLE := Runnable, INIT := Runnable], map[IDLE := Awake, INIT := Awake];
    assert Sane(kids, status, wait, map[], Null, IDLE) && Sane(kids, status, wait, map[], Null, INIT);
  }

  ghost predicate KernelOk(t: Tree, kids: Kids, list: seq<nat>, buckets: map<nat, seq<nat>>, nr: nat,
                           status: map<nat, Status>, wait: map<nat, Wait>, awaited: map<nat, nat>,
                           born: map<nat, nat>, clock: nat, exiting: set<nat>, stale: Link, dying: Link) {
    && ForestOk(t, kids, stale, born)
    && TablesOk(list, buckets, kids) && nr == |list| + 1
    && LivesOk(kids, status, wait, awaited, dying)
    && EldersOk(kids, status, born, clock)
    && MarksOk(exiting, kids)
  }

  class Kernel {
    var parent: map<nat, nat>
    var cptr: map<nat, Link>
    var optr: map<nat, Link>
    var yptr: map<nat, Link>
    var list: seq<nat>
    var buckets: map<nat, seq<nat>>
    var nr: nat
    var status: map<nat, Status>
    var wait: map<nat, Wait>
    var exiting: set<nat>
    ghost var kids: Kids
    ghost var born: map<nat, nat>
    ghost var awaited: map<nat, nat>
    ghost var clock: nat

    ghost function T(): Tree
      reads this
    {
      Tree(parent, cptr, optr, yptr)
    }

    ghost predicate Ok(stale: Link, dying: Link)
      reads this
    {
      KernelOk(T(), kids, list, buckets, nr, status, wait, awaited, born, clock, exiting, stale, dying)
    }

    ghost predicate Valid()
      reads this
    {
      Ok(Null, Null)
    }

    /** Idle and its child init. */
    constructor ()
      ensures Valid() && kids == map[IDLE := [INIT], INIT := []] && list == [INIT] && exiting == {}
      ensures status == map[IDLE := Runnable, INIT := Runnable] && wait == map[IDLE := Awake, INIT := Awake]
    {
      parent, cptr := map[INIT := IDLE], map[IDLE := At(INIT), INIT := Null];
      optr, yptr := map[IDLE := Null, INIT := Null], map[IDLE := Null, INIT := Null];
      list, nr, exiting := [INIT], 2, {};
      buckets := map b: nat | b < HASH_BUCKETS :: FirstChain(b);
      status, wait := map[IDLE := Runnable, INIT := Runnable], map[IDLE := Awake, INIT := Awake];
      kids, born, awaited, clock := map[IDLE := [INIT], INIT := []], map[IDLE := 0, INIT := 1], map[], 2;
      new;
      hide ForestOk, TablesOk, LivesOk, EldersOk, FirstChain;
      FirstForest();
      FirstTables(buckets);
      FirstLives();
    }

    method WakeupProc(p: nat, ghost stale: Link, ghost dying: Link)
      requires Ok(stale, dying) && p in kids && !Dead(status, p)
      modifies this`status, this`wait
      ensures Ok(stale, dying)
      ensures p in old(status) && status == old(status)[p := Runnable]
      ensures if old(status)[p] == Runnable then wait == old(wait) else wait == old(wait)[p := Awake]
    {
      hide ForestOk, TablesOk, EldersOk;
      WakeKeeps(kids, status, wait, awaited, dying, p);
      SaneAt(kids, status, wait, awaited, dying, p);
      EldersSame(kids, status, born, clock, p);
      if status[p] != Runnable {
        status := status[p := Runnable];
        wait := wait[p := Awake];
      }
      assert old(status)[p] == Runnable ==> status == old(status)[p := Runnable];
    }

    /** Takes the first child off the list of `cur` and puts it first on that of init. */
    method AdoptFirst(cur: nat) returns (child: nat)
      requires cur in cptr && cptr[cur].At? && cptr[cur].proc in optr && INIT in cptr && cur != INIT
      modifies this`parent, this`cptr, this`optr, this`yptr
      ensures child == old(cptr[cur].proc) && T() == Pushed(Popped(old(T()), cur), INIT, child)
    {
      child := cptr[cur].proc;
      cptr := cptr[cur := optr[child]];
      yptr := yptr[child := Null];
      optr := optr[child := cptr[INIT]];
      if cptr[INIT].At? {
        yptr := yptr[cptr[INIT].proc := At(child)];
      }
      parent := parent[child := INIT];
      cptr := cptr[INIT := At(child)];
    }

    /** One round of the loop in `do_exit` that gives the children of `cur` to init. */
    method HandOverOne(cur: nat, ghost stale: Link) returns (child: nat)
      requires Ok(stale, At(cur)) && cur in kids && cur != INIT && cur != IDLE && kids[cur] != []
      requires cur in wait && wait[cur] == Awake && (stale == Null || stale == At(cur))
      modifies this`parent, this`cptr, this`optr, this`yptr, this`kids, this`status, this`wait
      ensures Ok(At(cur), At(cur)) && child == old(kids)[cur][0] && kids == Moved(old(kids), cur)
      ensures InitWoken(old(status), old(wait), status, wait)
      ensures if Dead(old(status), child) && old(wait[INIT]) == Child then status == old(status)[INIT := Runnable]
              && wait == old(wait)[INIT := Awake]
              else status == old(status) && wait == old(wait)
    {
      hide KernelOk, Pushed, Popped, Dead, Moved, InitWoken;
      WakesInit(status, wait);
      HandOverKernel(T(), kids, stale, list, buckets, nr, status, wait, awaited, born, clock, exiting, cur);
      child := AdoptFirst(cur);
      kids := Moved(kids, cur);
      if status[child] == Zombie {
        if wait[INIT] == Child {
          status := status[INIT := Runnable];
          wait := wait[INIT := Awake];
        }
      }
    }

    /** The first half of `do_exit`: dead now, and a parent that waits for a child is woken. */
    method Die(cur: nat)
      requires Valid() && cur in kids && cur != IDLE && cur != INIT && cur in status && status[cur] == Runnable
      modifies this`status, this`wait
      ensures Ok(Null, At(cur)) && Dead(status, cur) && cur in wait && wait[cur] == Awake && INIT in kids
      ensures cur in parent && OnlyWoken(old(status), old(wait), status, wait, cur, parent[cur])
      ensures parent[cur] in old(wait) && parent[cur] in old(kids) && cur in old(kids)[parent[cur]]
      ensures status == Deaths(old(status), old(wait), cur, parent[cur]) && wait == Awoken(old(wait), parent[cur])
    {
      hide ForestOk, TablesOk, EldersOk, LivesOk, OnlyWoken, Dead;
      ExitStart(T(), kids, status, wait, awaited, born, clock, cur);
      ChildIndex(T(), kids, born, parent[cur], cur);
      DiesOnly(status, wait, cur, parent[cur]);
      status := status[cur := Zombie];
      var proc := parent[cur];
      if wait[proc] == Child {
        status := status[proc := Runnable];
        wait := wait[proc := Awake];
      }
    }

    /** The second half: the children go to init one by one. */
    method GiveAway(cur: nat)
      requires Ok(Null, At(cur)) && cur in kids && cur != IDLE && cur != INIT && cur in wait && wait[cur] == Awake
               && INIT in kids
      modifies this`parent, this`cptr, this`optr, this`yptr, this`kids, this`status, this`wait
      ensures Valid() && kids == old(kids)[cur := []][INIT := Reversed(old(kids)[cur]) + old(kids)[INIT]]
      ensures InitWoken(old(status), old(wait), status, wait)
      ensures CalledTo(old(kids)[cur], old(status), old(wait), status, wait)
    {
      hide ForestOk, TablesOk, EldersOk, LivesOk, Moved, Reversed, Adopted, Nth, Dead, CalledTo;
      ghost var k := kids;
      CalledNot(k[cur], status, wait);
      EldersFacts(kids, status, born, clock);
      LivesFacts(kids, status, wait, awaited, At(cur));
      AdoptedNone(k, cur);
      ghost var stale: Link := Null;
      ghost var m: nat := 0;
      HeadOf(T(), kids, stale, born, cur);
      while cptr[cur].At?
        invariant Ok(stale, At(cur)) && (stale == Null || stale == At(cur))
        invariant cur in kids && cur in cptr && cptr[cur] == Nth(kids[cur], 0)
        invariant cur in wait && wait[cur] == Awake
        invariant m <= |k[cur]| && kids == Adopted(k, cur, m)
        invariant InitWoken(old(status), old(wait), status, wait)
        invariant CalledTo(k[cur][..m], old(status), old(wait), status, wait)
        decreases |k[cur]| - m
      {
        AdoptedNext(k, cur, m);
        ghost var s, w := status, wait;
        var child := HandOverOne(cur, stale);
        InitWokenTwice(old(status), old(wait), s, w, status, wait);
        CalledOn(k[cur], m, old(status), old(wait), s, w, status, wait);
        m := m + 1;
        stale := At(cur);
        HeadOf(T(), kids, stale, born, cur);
      }
      AdoptedAll(k, cur, m);
      assert k[cur][..m] == k[cur];
      ExitEnd(T(), kids, stale, status, wait, awaited, born, cur);
    }

    /** `do_exit` of an ordinary process. */
    method Exit(cur: nat)
      requires Valid() && cur in kids && cur != IDLE && cur != INIT && cur in status && status[cur] == Runnable
      modifies this`parent, this`cptr, this`optr, this`yptr, this`kids, this`status, this`wait
      ensures Valid() && cur in kids && Dead(status, cur)
      ensures INIT in old(kids) && kids == old(kids)[cur := []][INIT := Reversed(old(kids)[cur]) + old(kids)[INIT]]
      ensures cur in old(parent) && OnlyWoken(old(status), old(wait), status, wait, cur, old(parent[cur]))
      ensures var p := old(parent[cur]);
              && p in old(wait) && p in old(kids) && cur in old(kids)[p]
              && CalledTo(old(kids)[cur], Deaths(old(status), old(wait), cur, p), Awoken(old(wait), p), status, wait)
    {
      hide ForestOk, TablesOk, EldersOk, LivesOk, Reversed, OnlyWoken, Dead;
      Die(cur);
      ghost var s, w := status, wait;
      GiveAway(cur);
      WokenStep(old(status), old(wait), s, w, status, wait, cur, old(parent[cur]));
    }

    /** Linking a new process first among its parent's children. */
    method SetLinks(proc: nat)
      requires proc in parent && parent[proc] in cptr
      modifies this`cptr, this`optr, this`yptr, this`list, this`nr
      ensures T() == Pushed(old(T()), parent[proc], proc) && list == [proc] + old(list) && nr == old(nr) + 1
    {
      list := [proc] + list;
      yptr := yptr[proc := Null];
      optr := optr[proc := cptr[parent[proc]]];
      if optr[proc].At? {
        yptr := yptr[optr[proc].proc := At(proc)];
      }
      assert parent == parent[proc := parent[proc]];
      cptr := cptr[parent[proc] := At(proc)];
      nr := nr + 1;
    }

    /** Cutting a process out from between its siblings. */
    method RemoveLinks(proc: nat)
      requires proc in parent && proc in optr && proc in yptr && nr > 0
      modifies this`cptr, this`optr, this`yptr, this`list, this`nr
      ensures T() == Unlinked(old(T()), proc) && list == Minus(old(list), proc) && nr == old(nr) - 1
    {
      list := Minus(list, proc);
      var older, younger := optr[proc], yptr[proc];
      if older.At? {
        yptr := yptr[older.proc := younger];
      }
      if younger.At? {
        optr := optr[younger.proc := older];
      } else {
        cptr := cptr[parent[proc] := older];
      }
      nr := nr - 1;
    }

    method FindProc(pid: nat) returns (found: bool)
      requires TablesOk(list, buckets, kids)
      ensures found <==> pid in kids && pid != IDLE
    {
      hide Bucket;
      if pid == 0 || pid >= Pids.MAX_PID {
        return false;
      }
      BucketInRange(pid);
      assert Hashed(buckets, list, Bucket(pid), pid);
      var chain := buckets[Bucket(pid)];
      var i: nat := 0;
      while i < |chain|
        invariant i <= |chain| && pid !in chain[..i]
      {
        if chain[i] == pid {
          return true;
        }
        i := i + 1;
      }
      return false;
    }

    /** A new record, hashed and linked under its parent. */
    method LinkNew(cur: nat, pid: nat)
      requires cur in cptr && cur != pid && Bucket(pid) in buckets
      modifies this`parent, this`cptr, this`optr, this`yptr, this`list, this`nr, this`buckets
      ensures cur in Created(old(T()), pid).cptr && T() == Pushed(Created(old(T()), pid), cur, pid)
      ensures pid in parent && parent[pid] == cur
      ensures list == [pid] + old(list) && nr == old(nr) + 1
              && buckets == old(buckets)[Bucket(pid) := [pid] + old(buckets)[Bucket(pid)]]
    {
      hide Bucket, Pushed;
      ghost var t := T();
      PushAgain(Created(t, pid), cur, pid);
      cptr, optr, yptr := cptr[pid := Null], optr[pid := Null], yptr[pid := Null];
      parent := parent[pid := cur];
      buckets := buckets[Bucket(pid) := [pid] + buckets[Bucket(pid)]];
      assert T() == Created(t, pid).(parent := t.parent[pid := cur]);
      SetLinks(pid);
      assert parent == t.parent[pid := cur] by {
        PushedParent(Created(t, pid), cur, pid);
      }
    }

    /** `do_fork` from the choice of the number on. */
    method Fork(cur: nat, pid: nat)
      requires Valid() && cur in kids && cur in status && status[cur] == Runnable && pid !in kids
               && 0 < pid < Pids.MAX_PID
      modifies this
      ensures Valid() && kids == old(kids)[pid := []][cur := [pid] + old(kids)[cur]]
      ensures exiting == old(exiting) && pid !in exiting && list == [pid] + old(list)
      ensures pid in parent && parent[pid] == cur && status == old(status)[pid := Runnable]
              && wait == old(wait)[pid := Awake]
    {
      hide KernelOk, Pushed, Created, Bucket;
      ForkKernel(T(), kids, list, buckets, nr, status, wait, awaited, born, clock, exiting, cur, pid);
      LinkNew(cur, pid);
      StartNew(cur, pid);
    }

    /** What the new process starts with. */
    method StartNew(cur: nat, pid: nat)
      requires cur in kids && cur != pid
      modifies this`kids, this`born, this`clock, this`status, this`wait, this`exiting
      ensures kids == old(kids)[pid := []][cur := [pid] + old(kids)[cur]]
      ensures born == old(born)[pid := old(clock)] && clock == old(clock) + 1
      ensures status == old(status)[pid := Runnable] && wait == old(wait)[pid := Awake]
      ensures exiting == old(exiting) - {pid}
    {
      kids := kids[pid := []][cur := [pid] + kids[cur]];
      born, clock := born[pid := clock], clock + 1;
      status, wait := status[pid := Runnable], wait[pid := Awake];
      exiting := exiting - {pid};
    }

    /** Frees a dead child: out of the hash table, out of the tree, gone. */
    method Reap(cur: nat, child: nat, ghost k: nat)
      requires Valid() && cur in kids && cur in status && status[cur] == Runnable
      requires k < |kids[cur]| && kids[cur][k] == child && Dead(status, child)
      modifies this
      ensures Valid() && child in old(kids) && old(kids)[child] == [] && child != INIT && child != IDLE
      ensures kids == old(kids)[cur := Without(old(kids)[cur], k)] - {child}
      ensures status == old(status) - {child} && wait == old(wait) - {child} && exiting == old(exiting) - {child}
      ensures list == Minus(old(list), child)
    {
      hide KernelOk, Unlinked, Forgotten, Bucket, Minus, Without, Dead;
      ReapKernel(T(), kids, list, buckets, nr, status, wait, awaited, born, clock, exiting, cur, k);
      UnhashAndUnlink(child);
      kids := kids[cur := Without(kids[cur], k)] - {child};
      born := born - {child};
      status, wait := status - {child}, wait - {child};
      exiting := exiting - {child};
    }

    method UnhashAndUnlink(proc: nat)
      requires proc in parent && proc in optr && proc in yptr && nr > 0 && Bucket(proc) in buckets
      modifies this`parent, this`cptr, this`optr, this`yptr, this`list, this`nr, this`buckets
      ensures T() == Forgotten(Unlinked(old(T()), proc), proc)
      ensures list == Minus(old(list), proc) && nr == old(nr) - 1
              && buckets == old(buckets)[Bucket(proc) := Minus(old(buckets)[Bucket(proc)], proc)]
    {
      hide Bucket, Minus, Unlinked;
      buckets := buckets[Bucket(proc) := Minus(buckets[Bucket(proc)], proc)];
      RemoveLinks(proc);
      parent, cptr, optr, yptr := parent - {proc}, cptr - {proc}, optr - {proc}, yptr - {proc};
    }

    /** The search of `do_wait`: a dead child if there is one among those asked for, and whether there are any. */
    method Seek(cur: nat, pid: nat) returns (haskid: bool, found: bool, proc: nat, ghost k: nat)
      requires Valid() && cur in kids && cur != IDLE
      ensures found ==> k < |kids[cur]| && kids[cur][k] == proc && Dead(status, proc) && (pid != 0 ==> proc == pid)
      ensures found ==> FirstOf(kids[cur], status, pid, k)
      ensures !found && haskid ==> Hopes(kids, status, cur, pid)
      ensures !haskid ==> !found && if pid == 0 then kids[cur] == [] else pid !in kids[cur]
    {
      hide ForestOk, TablesOk, EldersOk, LivesOk;
      haskid, found, proc, k := false, false, 0, 0;
      LivesFacts(kids, status, wait, awaited, Null);
      if pid != 0 {
        var there := FindProc(pid);
        ChildIndex(T(), kids, born, cur, pid);
        if there && parent[pid] == cur {
          haskid := true;
          if status[pid] == Zombie {
            k := LeastIndex(kids[cur], pid);
            return true, true, pid, k;
          }
        }
      } else {
        HeadOf(T(), kids, Null, born, cur);
        var at := cptr[cur];
        ghost var i: nat := 0;
        while at.At?
          invariant i <= |kids[cur]| && at == Nth(kids[cur], i) && (haskid <==> i > 0)
          invariant forall j: nat :: j < i ==> !Dead(status, kids[cur][j])
          decreases |kids[cur]| - i
        {
          haskid := true;
          NextOf(T(), kids, born, cur, i);
          if status[at.proc] == Zombie {
            return true, true, at.proc, i;
          }
          at := optr[at.proc];
          i := i + 1;
        }
      }
    }

    /** One pass of `do_wait`: it frees a dead child, goes to sleep for one, or there is none to wait for. */
    method Wait(cur: nat, pid: nat) returns (outcome: Outcome, ghost k: nat)
      requires Valid() && cur in kids && cur != IDLE && cur in status && status[cur] == Runnable
      modifies this
      ensures Valid()
      ensures outcome.Reaped? ==>
                k < |old(kids)[cur]| && old(kids)[cur][k] == outcome.child && Dead(old(status), outcome.child)
                && (pid != 0 ==> outcome.child == pid)
      ensures outcome.Reaped? ==>
                kids == old(kids)[cur := Without(old(kids)[cur], k)] - {outcome.child} && outcome.child in old(kids)
                && old(kids)[outcome.child] == []
      ensures outcome.Reaped? ==> FirstOf(old(kids)[cur], old(status), pid, k) && outcome.child != IDLE
      ensures outcome.Reaped? ==> status == old(status) - {outcome.child} && wait == old(wait) - {outcome.child}
      ensures list == if outcome.Reaped? then Minus(old(list), outcome.child) else old(list)
      ensures exiting == if outcome.Reaped? then old(exiting) - {outcome.child} else old(exiting)
      ensures outcome.Slept? ==>
                kids == old(kids) && status == old(status)[cur := Sleeping] && wait == old(wait)[cur := Child]
                && Hopes(kids, status, cur, pid)
      ensures outcome.NoChild? ==>
                kids == old(kids) && status == old(status) && wait == old(wait)
                && if pid == 0 then kids[cur] == [] else pid !in kids[cur]
    {
      hide ForestOk, TablesOk, EldersOk, LivesOk, Dead, Hopes, Without, FirstOf;
      var haskid, found, proc, at := Seek(cur, pid);
      k := at;
      if found {
        Reap(cur, proc, at);
        return Reaped(proc), k;
      }
      if haskid {
        SleepAll(kids, status, wait, awaited, born, clock, cur, pid);
        status, wait := status[cur := Sleeping], wait[cur := Child];
        awaited := awaited[cur := pid];
        return Slept, k;
      }
      return NoChild, k;
    }

    /** `do_sleep` up to its call of `schedule`. */
    method DoSleep(cur: nat, time: nat)
      requires Valid() && cur in kids && cur != IDLE && cur in status && status[cur] == Runnable
      modifies this`status, this`wait
      ensures Valid()
      ensures time == 0 ==> status == old(status) && wait == old(wait)
      ensures time > 0 ==> status == old(status)[cur := Sleeping] && wait == old(wait)[cur := Timer]
    {
      if time > 0 {
        Doze(cur, Timer);
      }
    }

    /** `down` of a semaphore that has no unit left, up to its call of `schedule`. */
    method BlockOnSemaphore(cur: nat)
      requires Valid() && cur in kids && cur != IDLE && cur in status && status[cur] == Runnable
      modifies this`status, this`wait
      ensures Valid() && status == old(status)[cur := Sleeping] && wait == old(wait)[cur := Ksem]
    {
      Doze(cur, Ksem);
    }

    method Doze(cur: nat, why: Wait)
      requires Valid() && cur in kids && cur != IDLE && cur in status && status[cur] == Runnable
               && (why == Timer || why == Ksem)
      modifies this`status, this`wait
      ensures Valid() && status == old(status)[cur := Sleeping] && wait == old(wait)[cur := why]
    {
      hide ForestOk, TablesOk, LivesOk;
      SleepOther(kids, status, wait, awaited, cur, why);
      status, wait := status[cur := Sleeping], wait[cur := why];
    }

    /** Marks a process for its end, and wakes it unless it waits for a semaphore. */
    method Kill(pid: nat) returns (done: bool)
      requires Valid()
      modifies this`exiting, this`status, this`wait
      ensures Valid() && (done <==> pid in kids && pid != IDLE && pid !in old(exiting))
      ensures exiting == if done then old(exiting) + {pid} else old(exiting)
      ensures done && pid in old(wait) && (old(wait)[pid] == Child || old(wait)[pid] == Timer) ==>
                status == old(status)[pid := Runnable] && wait == old(wait)[pid := Awake]
      ensures !done || (pid in old(wait) && (old(wait)[pid] == Ksem || old(wait)[pid] == Awake)) ==>
                status == old(status) && wait == old(wait)
    {
      hide ForestOk, TablesOk, EldersOk, LivesOk, Dead;
      done := FindProc(pid);
      if done {
        if pid in exiting {
          return false;
        }
        exiting := exiting + {pid};
        LivesFacts(kids, status, wait, awaited, Null);
        Sleeper(kids, status, wait, awaited, pid);
        if wait[pid] == Child || wait[pid] == Timer {
          WakeupProc(pid, Null, Null);
        }
      }
    }
  }

  /** The children before place `k` are not what the search looks for. */
  ghost predicate FirstOf(children: seq<nat>, status: map<nat, Status>, pid: nat, k: nat) {
    forall j: nat :: j < k && j < |children| ==> if pid == 0 then !Dead(status, children[j]) else children[j] != pid
  }

  lemma {:induction false} LeastIndex(s: seq<nat>, x: nat) returns (k: nat)
    requires x in s
    ensures k < |s| && s[k] == x && forall j: nat :: j < k ==> s[j] != x
  {
    k := 0;
    while s[k] != x
      invariant k < |s| && forall j: nat :: j < k ==> s[j] != x
      invariant x in s
      decreases |s| - k
    {
      k := k + 1;
    }
  }

  /** The states once `cur` is dead and its parent, if it waits for a child, woken. */
  function Deaths(status: map<nat, Status>, wait: map<nat, Wait>, cur: nat, parent: nat): map<nat, Status>
    requires parent in wait
  {
    if wait[parent] == Child then status[cur := Zombie][parent := Runnable] else status[cur := Zombie]
  }

  function Awoken(wait: map<nat, Wait>, parent: nat): map<nat, Wait>
    requires parent in wait
  {
    if wait[parent] == Child then wait[parent := Awake] else wait
  }

  /** Init is woken for a dead child among those it is given. */
  ghost predicate CallsInit(children: seq<nat>, status: map<nat, Status>, wait: map<nat, Wait>) {
    INIT in wait && wait[INIT] == Child && exists i: nat :: i < |children| && Dead(status, children[i])
  }

  datatype Outcome = Reaped(child: nat) | Slept | NoChild

  predicate InitWoken(s: map<nat, Status>, w: map<nat, Wait>, t: map<nat, Status>, x: map<nat, Wait>) {
    (t == s && x == w) || (INIT in w && w[INIT] == Child && t == s[INIT := Runnable] && x == w[INIT := Awake])
  }

  /** What handing `children` to init does to it. */
  ghost predicate CalledTo(children: seq<nat>, s: map<nat, Status>, w: map<nat, Wait>, t: map<nat, Status>,
                           x: map<nat, Wait>) {
    if CallsInit(children, s, w) then t == s[INIT := Runnable] && x == w[INIT := Awake] else t == s && x == w
  }

  lemma CalledNot(children: seq<nat>, s: map<nat, Status>, w: map<nat, Wait>)
    ensures CalledTo(children[..0], s, w, s, w)
  {
  }

  lemma CalledOn(children: seq<nat>, m: nat, s0: map<nat, Status>, w0: map<nat, Wait>, s: map<nat, Status>,
                 w: map<nat, Wait>, t: map<nat, Status>, x: map<nat, Wait>)
    requires m < |children| && CalledTo(children[..m], s0, w0, s, w) && INIT in w0 && !Dead(s0, INIT)
    requires if Dead(s, children[m]) && INIT in w && w[INIT] == Child
             then t == s[INIT := Runnable] && x == w[INIT := Awake] else t == s && x == w
    ensures CalledTo(children[..m + 1], s0, w0, t, x)
  {
    var less, more := children[..m], children[..m + 1];
    assert Dead(s, children[m]) <==> Dead(s0, children[m]);
    assert forall i: nat :: i < m ==> more[i] == less[i];
    assert more[m] == children[m];
    if CallsInit(less, s0, w0) {
      var i: nat :| i < |less| && Dead(s0, less[i]);
      assert Dead(s0, more[i]);
    }
  }

  lemma WakesInit(s: map<nat, Status>, w: map<nat, Wait>)
    ensures InitWoken(s, w, s, w)
    ensures INIT in w && w[INIT] == Child ==> InitWoken(s, w, s[INIT := Runnable], w[INIT := Awake])
  {
  }

  lemma InitWokenTwice(s0: map<nat, Status>, w0: map<nat, Wait>, s: map<nat, Status>, w: map<nat, Wait>,
                       t: map<nat, Status>, x: map<nat, Wait>)
    requires InitWoken(s0, w0, s, w) && InitWoken(s, w, t, x)
    ensures InitWoken(s0, w0, t, x)
  {
  }

  /** Nobody but `cur` dies, and only the parent and init change, if they were waiting for a child: they are runnable
      now, the parent for certain. */
  ghost predicate OnlyWoken(s0: map<nat, Status>, w0: map<nat, Wait>, s: map<nat, Status>, w: map<nat, Wait>,
                            cur: nat, parent: nat) {
    && s.Keys == s0.Keys && w.Keys == w0.Keys && s0.Keys == w0.Keys && parent in s && parent != cur
    && (forall p: nat :: p in s0 && p != cur ==>
         if w[p] == w0[p] then s[p] == s0[p]
         else (p == parent || p == INIT) && w0[p] == Child && w[p] == Awake && s[p] == Runnable)
    && w[parent] != Child
  }

  lemma DiesOnly(s0: map<nat, Status>, w0: map<nat, Wait>, cur: nat, p: nat)
    requires s0.Keys == w0.Keys && cur in s0 && p in s0 && p != cur
    ensures OnlyWoken(s0, w0,
                      if w0[p] == Child then s0[cur := Zombie][p := Runnable] else s0[cur := Zombie],
                      if w0[p] == Child then w0[p := Awake] else w0, cur, p)
    ensures Dead(if w0[p] == Child then s0[cur := Zombie][p := Runnable] else s0[cur := Zombie], cur)
  {
  }

  lemma WokenStep(s0: map<nat, Status>, w0: map<nat, Wait>, s: map<nat, Status>, w: map<nat, Wait>,
                  t: map<nat, Status>, x: map<nat, Wait>, cur: nat, p: nat)
    requires OnlyWoken(s0, w0, s, w, cur, p) && cur != INIT && Dead(s, cur) && InitWoken(s, w, t, x)
    ensures OnlyWoken(s0, w0, t, x, cur, p) && Dead(t, cur)
  {
  }

  /** The children lists once the first `m` children of `c` have gone to init, one after the other. */
  ghost function Adopted(kids: Kids, c: nat, m: nat): Kids
    requires c in kids && INIT in kids && m <= |kids[c]|
  {
    kids[c := kids[c][m..]][INIT := Reversed(kids[c][..m]) + kids[INIT]]
  }

  lemma AdoptedNone(kids: Kids, c: nat)
    requires c in kids && INIT in kids && c != INIT
    ensures Adopted(kids, c, 0) == kids
  {
    var none := kids[c][..0];
    assert none == [] && kids[c][0..] == kids[c];
    assert Reversed(none) + kids[INIT] == kids[INIT];
  }

  lemma AdoptedNext(kids: Kids, c: nat, m: nat)
    requires c in kids && INIT in kids && c != INIT && m <= |kids[c]| && Nth(Adopted(kids, c, m)[c], 0).At?
    ensures m < |kids[c]| && INIT in Adopted(kids, c, m) && Adopted(kids, c, m)[c] != [] && c in Adopted(kids, c, m + 1)
    ensures Moved(Adopted(kids, c, m), c) == Adopted(kids, c, m + 1) && Adopted(kids, c, m)[c][0] == kids[c][m]
  {
    CutFirst(kids[c], kids[INIT], m);
  }

  lemma AdoptedAll(kids: Kids, c: nat, m: nat)
    requires c in kids && INIT in kids && c != INIT && m <= |kids[c]| && !Nth(Adopted(kids, c, m)[c], 0).At?
    ensures Adopted(kids, c, m) == kids[c := []][INIT := Reversed(kids[c]) + kids[INIT]] && Adopted(kids, c, m)[c] == []
    ensures m == |kids[c]|
  {
    assert kids[c][..m] == kids[c];
  }

  lemma CutFirst(s: seq<nat>, t: seq<nat>, m: nat)
    requires m < |s|
    ensures s[m..] != [] && s[m..][1..] == s[m + 1..]
            && [s[m..][0]] + (Reversed(s[..m]) + t) == Reversed(s[..m + 1]) + t
  {
    assert s[..m + 1] == s[..m] + [s[m]];
    ReversedAppend(s[..m], s[m]);
  }

  lemma HeadOf(t: Tree, kids: Kids, stale: Link, born: map<nat, nat>, p: nat)
    requires ForestOk(t, kids, stale, born) && p in kids
    ensures p in t.cptr && t.cptr[p] == Nth(kids[p], 0)
  {
    hide LinksOk;
    Head(t, kids, stale, Null, p);
  }

  lemma ExitStart(t: Tree, kids: Kids, status: map<nat, Status>, wait: map<nat, Wait>, awaited: map<nat, nat>,
                  born: map<nat, nat>, clock: nat, c: nat)
    requires ForestOk(t, kids, Null, born) && LivesOk(kids, status, wait, awaited, Null)
             && EldersOk(kids, status, born, clock)
    requires c in kids && c != IDLE && c != INIT && c in status && status[c] == Runnable
    ensures c in t.parent && t.parent[c] in kids && t.parent[c] != c && INIT in kids && c in wait && wait[c] == Awake
            && t.parent[c] in wait && wait.Keys == status.Keys
    ensures var p := t.parent[c];
            var s := if wait[p] == Child then status[c := Zombie][p := Runnable] else status[c := Zombie];
            var w := if wait[p] == Child then wait[p := Awake] else wait;
            LivesOk(kids, s, w, awaited, At(c)) && EldersOk(kids, s, born, clock)
  {
    hide LinksOk, LivesOk;
    var p := t.parent[c];
    LivesFacts(kids, status, wait, awaited, Null);
    SaneAt(kids, status, wait, awaited, Null, c);
    OneParent(t, kids, Null, Null, p, c);
    DieKeeps(kids, status, wait, awaited, c, p);
  }

  lemma ExitEnd(t: Tree, kids: Kids, stale: Link, status: map<nat, Status>, wait: map<nat, Wait>,
                awaited: map<nat, nat>, born: map<nat, nat>, c: nat)
    requires ForestOk(t, kids, stale, born) && LivesOk(kids, status, wait, awaited, At(c)) && c in kids && kids[c] == []
             && (stale == Null || stale == At(c))
    ensures ForestOk(t, kids, Null, born) && LivesOk(kids, status, wait, awaited, Null)
  {
    hide ForestOk, LivesOk;
    Unstale(t, kids, born, c, stale);
    ExitDone(kids, status, wait, awaited, c);
  }

  lemma HandOverKeeps(t: Tree, kids: Kids, stale: Link, list: seq<nat>, buckets: map<nat, seq<nat>>,
                      status: map<nat, Status>, wait: map<nat, Wait>, awaited: map<nat, nat>, born: map<nat, nat>,
                      clock: nat, c: nat)
    requires ForestOk(t, kids, stale, born) && TablesOk(list, buckets, kids)
             && LivesOk(kids, status, wait, awaited, At(c)) && EldersOk(kids, status, born, clock)
    requires c in kids && c != INIT && c != IDLE && kids[c] != [] && c in wait && wait[c] == Awake
             && (stale == Null || stale == At(c))
    ensures INIT in kids && c in t.cptr && t.cptr[c] == At(kids[c][0]) && kids[c][0] in t.optr && INIT in t.cptr
    ensures kids[c][0] in status && INIT in wait && (Dead(status, kids[c][0]) <==> status[kids[c][0]] == Zombie)
    ensures ForestOk(Pushed(Popped(t, c), INIT, kids[c][0]), Moved(kids, c), At(c), born)
            && TablesOk(list, buckets, Moved(kids, c))
    ensures var woken := status[kids[c][0]] == Zombie && wait[INIT] == Child;
            && LivesOk(Moved(kids, c), if woken then status[INIT := Runnable] else status,
                       if woken then wait[INIT := Awake] else wait, awaited, At(c))
            && EldersOk(Moved(kids, c), if woken then status[INIT := Runnable] else status, born, clock)
  {
    hide ForestOk, TablesOk, EldersOk, LivesOk, Pushed, Popped;
    EldersFacts(kids, status, born, clock);
    LivesFacts(kids, status, wait, awaited, At(c));
    MoveKeeps(t, kids, stale, born, status, clock, c);
    TablesSame(list, buckets, kids, Moved(kids, c));
    HandOver(kids, status, wait, awaited, c);
    EldersMoved(kids, status, born, clock, c);
    EldersSame(Moved(kids, c), status, born, clock, INIT);
  }

  lemma HandOverKernel(t: Tree, kids: Kids, stale: Link, list: seq<nat>, buckets: map<nat, seq<nat>>, nr: nat,
                       status: map<nat, Status>, wait: map<nat, Wait>, awaited: map<nat, nat>, born: map<nat, nat>,
                       clock: nat, exiting: set<nat>, c: nat)
    requires KernelOk(t, kids, list, buckets, nr, status, wait, awaited, born, clock, exiting, stale, At(c))
    requires c in kids && c != INIT && c != IDLE && kids[c] != [] && c in wait && wait[c] == Awake
             && (stale == Null || stale == At(c))
    ensures INIT in kids && c in t.cptr && t.cptr[c] == At(kids[c][0]) && kids[c][0] in t.optr && INIT in t.cptr
    ensures kids[c][0] in status && INIT in wait && (Dead(status, kids[c][0]) <==> status[kids[c][0]] == Zombie)
    ensures var woken := status[kids[c][0]] == Zombie && wait[INIT] == Child;
            KernelOk(Pushed(Popped(t, c), INIT, kids[c][0]), Moved(kids, c), list, buckets, nr,
                     if woken then status[INIT := Runnable] else status, if woken then wait[INIT := Awake] else wait,
                     awaited, born, clock, exiting, At(c), At(c))
  {
    hide ForestOk, TablesOk, EldersOk, LivesOk, MarksOk, Pushed, Popped, Moved;
    HandOverKeeps(t, kids, stale, list, buckets, status, wait, awaited, born, clock, c);
    MarksMoved(exiting, kids, c);
  }

  lemma EldersFacts(kids: Kids, status: map<nat, Status>, born: map<nat, nat>, clock: nat)
    requires EldersOk(kids, status, born, clock)
    ensures INIT in kids && IDLE in kids && !Dead(status, INIT) && !Dead(status, IDLE)
  {
  }

  lemma EldersSame(kids: Kids, status: map<nat, Status>, born: map<nat, nat>, clock: nat, p: nat)
    requires EldersOk(kids, status, born, clock)
    ensures EldersOk(kids, status[p := Runnable], born, clock)
  {
  }

  lemma EldersMoved(kids: Kids, status: map<nat, Status>, born: map<nat, nat>, clock: nat, c: nat)
    requires EldersOk(kids, status, born, clock) && c in kids && kids[c] != []
    ensures EldersOk(Moved(kids, c), status, born, clock)
  {
  }

  lemma LivesFacts(kids: Kids, status: map<nat, Status>, wait: map<nat, Wait>, awaited: map<nat, nat>, exiting: Link)
    requires LivesOk(kids, status, wait, awaited, exiting)
    ensures status.Keys == kids.Keys && wait.Keys == kids.Keys
  {
  }

  lemma PushAgain(t: Tree, p: nat, c: nat)
    requires p in t.cptr
    ensures Pushed(t.(parent := t.parent[c := p]), p, c) == Pushed(t, p, c)
  {
    assert t.parent[c := p][c := p] == t.parent[c := p];
  }

  lemma ForkAll(t: Tree, kids: Kids, list: seq<nat>, buckets: map<nat, seq<nat>>, status: map<nat, Status>,
                wait: map<nat, Wait>, awaited: map<nat, nat>, born: map<nat, nat>, clock: nat, p: nat, c: nat)
    requires ForestOk(t, kids, Null, born) && TablesOk(list, buckets, kids)
             && LivesOk(kids, status, wait, awaited, Null) && EldersOk(kids, status, born, clock)
    requires p in kids && c !in kids && 0 < c < Pids.MAX_PID && p in status && status[p] == Runnable
    ensures p in t.cptr && p in Created(t, c).cptr && Bucket(c) in buckets
    ensures var after := kids[c := []][p := [c] + kids[p]];
            && ForestOk(Pushed(Created(t, c), p, c), after, Null, born[c := clock])
            && TablesOk([c] + list, buckets[Bucket(c) := [c] + buckets[Bucket(c)]], after)
            && LivesOk(after, status[c := Runnable], wait[c := Awake], awaited, Null)
            && EldersOk(after, status[c := Runnable], born[c := clock], clock + 1)
  {
    hide LinksOk, TablesOk, LivesOk, Pushed, Bucket;
    Head(t, kids, Null, Null, p);
    CreateKeeps(t, kids, c);
    PushKeeps(Created(t, c), kids[c := []], Null, p, c);
    ForkRooted(t, kids, born, p, c, clock);
    TablesAdd(list, buckets, kids, c, kids[c := []][p := [c] + kids[p]]);
    LivesFacts(kids, status, wait, awaited, Null);
    SaneAt(kids, status, wait, awaited, Null, p);
    ForkKeeps(kids, status, wait, awaited, p, c);
  }

  lemma ForkKernel(t: Tree, kids: Kids, list: seq<nat>, buckets: map<nat, seq<nat>>, nr: nat,
                   status: map<nat, Status>, wait: map<nat, Wait>, awaited: map<nat, nat>, born: map<nat, nat>,
                   clock: nat, exiting: set<nat>, p: nat, c: nat)
    requires KernelOk(t, kids, list, buckets, nr, status, wait, awaited, born, clock, exiting, Null, Null)
    requires p in kids && c !in kids && 0 < c < Pids.MAX_PID && p in status && status[p] == Runnable
    ensures p in t.cptr && p in Created(t, c).cptr && Bucket(c) in buckets && exiting - {c} == exiting
    ensures KernelOk(Pushed(Created(t, c), p, c), kids[c := []][p := [c] + kids[p]], [c] + list,
                     buckets[Bucket(c) := [c] + buckets[Bucket(c)]], nr + 1, status[c := Runnable], wait[c := Awake],
                           awaited,
                     born[c := clock], clock + 1, exiting, Null, Null)
  {
    hide ForestOk, TablesOk, EldersOk, LivesOk, MarksOk, Pushed, Created, Bucket;
    ForkAll(t, kids, list, buckets, status, wait, awaited, born, clock, p, c);
    Unmarked(exiting, kids, p, c);
  }

  lemma PushedParent(t: Tree, p: nat, c: nat)
    requires p in t.cptr
    ensures Pushed(t, p, c).parent == t.parent[c := p]
  {
  }

  lemma ReapAll(t: Tree, kids: Kids, list: seq<nat>, buckets: map<nat, seq<nat>>, status: map<nat, Status>,
                wait: map<nat, Wait>, awaited: map<nat, nat>, born: map<nat, nat>, clock: nat, p: nat, k: nat)
    requires ForestOk(t, kids, Null, born) && TablesOk(list, buckets, kids)
             && LivesOk(kids, status, wait, awaited, Null) && EldersOk(kids, status, born, clock)
    requires p in kids && p in status && status[p] == Runnable && k < |kids[p]| && Dead(status, kids[p][k])
    ensures var c := kids[p][k];
            && c in kids && kids[c] == [] && c != INIT && c != IDLE && c != p && c in t.parent && c in t.optr
               && c in t.yptr && Bucket(c) in buckets
            && |Minus(list, c)| == |list| - 1
            && var after := kids[p := Without(kids[p], k)] - {c};
            && ForestOk(Forgotten(Unlinked(t, c), c), after, Null, born - {c})
            && TablesOk(Minus(list, c), buckets[Bucket(c) := Minus(buckets[Bucket(c)], c)], after)
            && LivesOk(after, status - {c}, wait - {c}, awaited, Null)
            && EldersOk(after, status - {c}, born - {c}, clock)
  {
    hide LinksOk, LivesOk, Unlinked, Forgotten, Bucket, Minus, Without;
    var c := kids[p][k];
    Row(t, kids, Null, Null, p, k);
    SaneAt(kids, status, wait, awaited, Null, c);
    SaneAt(kids, status, wait, awaited, Null, p);
    LivesFacts(kids, status, wait, awaited, Null);
    UnlinkKeeps(t, kids, p, k);
    ForgetKeeps(Unlinked(t, c), kids[p := Without(kids[p], k)], c);
    ReapRooted(t, kids, born, p, k);
    OneParent(t, kids, Null, Null, p, c);
    ReapKeeps(kids, status, wait, awaited, p, k);
    TablesRemove(list, buckets, kids, c, kids[p := Without(kids[p], k)] - {c});
  }

  lemma ReapKernel(t: Tree, kids: Kids, list: seq<nat>, buckets: map<nat, seq<nat>>, nr: nat,
                   status: map<nat, Status>, wait: map<nat, Wait>, awaited: map<nat, nat>, born: map<nat, nat>,
                   clock: nat, exiting: set<nat>, p: nat, k: nat)
    requires KernelOk(t, kids, list, buckets, nr, status, wait, awaited, born, clock, exiting, Null, Null)
    requires p in kids && p in status && status[p] == Runnable && k < |kids[p]| && Dead(status, kids[p][k])
    ensures var c := kids[p][k];
            && c in kids && kids[c] == [] && c != INIT && c != IDLE && c in t.parent && c in t.optr && c in t.yptr
            && Bucket(c) in buckets && nr > 0
            && KernelOk(Forgotten(Unlinked(t, c), c), kids[p := Without(kids[p], k)] - {c}, Minus(list, c),
                        buckets[Bucket(c) := Minus(buckets[Bucket(c)], c)], nr - 1, status - {c}, wait - {c}, awaited,
                        born - {c}, clock, exiting - {c}, Null, Null)
  {
    hide ForestOk, TablesOk, EldersOk, LivesOk, MarksOk, Unlinked, Forgotten, Bucket, Minus, Without, Dead;
    ReapAll(t, kids, list, buckets, status, wait, awaited, born, clock, p, k);
    MarkGone(exiting, kids, p, k);
  }

  lemma ChildIndex(t: Tree, kids: Kids, born: map<nat, nat>, p: nat, c: nat)
    requires ForestOk(t, kids, Null, born) && p in kids && c != IDLE
    ensures c in kids ==> c in t.parent
    ensures c in kids && t.parent[c] == p <==> c in kids[p]
  {
    hide LinksOk;
    if c in kids[p] {
      var i: nat :| i < |kids[p]| && kids[p][i] == c;
      Row(t, kids, Null, Null, p, i);
    }
  }

  lemma NextOf(t: Tree, kids: Kids, born: map<nat, nat>, p: nat, i: nat)
    requires ForestOk(t, kids, Null, born) && p in kids && Nth(kids[p], i).At?
    ensures i < |kids[p]| && kids[p][i] in kids && kids[p][i] in t.optr && t.optr[kids[p][i]] == Nth(kids[p], i + 1)
  {
    hide LinksOk;
    Row(t, kids, Null, Null, p, i);
  }

  lemma SleepAll(kids: Kids, status: map<nat, Status>, wait: map<nat, Wait>, awaited: map<nat, nat>,
                 born: map<nat, nat>, clock: nat, p: nat, pid: nat)
    requires LivesOk(kids, status, wait, awaited, Null) && EldersOk(kids, status, born, clock)
    requires p in kids && p in status && status[p] == Runnable && Hopes(kids, status, p, pid)
    ensures LivesOk(kids, status[p := Sleeping], wait[p := Child], awaited[p := pid], Null)
            && EldersOk(kids, status[p := Sleeping], born, clock)
    ensures Hopes(kids, status[p := Sleeping], p, pid)
  {
    hide LivesOk, Hopes;
    SleepKeeps(kids, status, wait, awaited, p, pid);
    StillHopes(kids, status, status[p := Sleeping], p, pid);
  }

  lemma Sleeper(kids: Kids, status: map<nat, Status>, wait: map<nat, Wait>, awaited: map<nat, nat>, p: nat)
    requires LivesOk(kids, status, wait, awaited, Null) && p in kids
    ensures p in wait && p in status && (wait[p] != Awake ==> status[p] == Sleeping && !Dead(status, p))
  {
    SaneAt(kids, status, wait, awaited, Null, p);
  }

  /** The line of parents of any process ends at idle. */
  lemma {:induction false} Ancestry(t: Tree, kids: Kids, born: map<nat, nat>, c: nat) returns (line: seq<nat>)
    requires Rooted(t, kids, born) && c in kids
    ensures |line| > 0 && line[0] == c && line[|line| - 1] == IDLE
    ensures forall i: nat :: i + 1 < |line| ==> line[i] in t.parent && t.parent[line[i]] == line[i + 1]
    decreases born[c]
  {
    if c == IDLE {
      line := [c];
    } else {
      var rest := Ancestry(t, kids, born, t.parent[c]);
      line := [c] + rest;
    }
  }
}
