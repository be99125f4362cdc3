/** Who waits for whom: sleeping parents, dead children and the tables that hold the processes. */
module ProcLife {
  import opened ProcTree
  import Pids

  const HASH_BUCKETS: nat := 1024
  const IDLE: nat := 0
  const INIT: nat := 1

  function Bucket(pid: nat): nat {
    (pid * 0x9e370001) % 0x1_0000_0000 / 0x40_0000
  }

  datatype Status = Runnable | Sleeping | Zombie

  /** `wait_state`: `Child` and `Timer` may be interrupted, `Ksem` may not. */
  datatype Wait = Awake | Child | Timer | Ksem

  // ----- the process list and the hash table -----

  function Minus(s: seq<nat>, x: nat): seq<nat> {
    if s == [] then [] else if s[0] == x then Minus(s[1..], x) else [s[0]] + Minus(s[1..], x)
  }

  lemma {:induction false} MinusHas(s: seq<nat>, x: nat, y: nat)
    ensures y in Minus(s, x) <==> y in s && y != x
  {
    if s != [] {
      MinusHas(s[1..], x, y);
      assert s == [s[0]] + s[1..];
    }
  }

  lemma {:induction false} MinusDistinct(s: seq<nat>, x: nat)
    requires Pids.Distinct(s)
    ensures Pids.Distinct(Minus(s, x)) && |Minus(s, x)| == |s| - if x in s then 1 else 0
  {
    if s != [] {
      assert Pids.Distinct(s[1..]) by {
        forall i: nat, j: nat | i < j < |s[1..]|
          ensures s[1..][i] != s[1..][j]
        {
          assert s[i + 1] != s[j + 1];
        }
      }
      MinusDistinct(s[1..], x);
      if s[0] == x {
        assert x !in s[1..];
      } else {
        MinusHas(s[1..], x, s[0]);
        assert s[0] !in s[1..];
      }
      assert s == [s[0]] + s[1..];
    }
  }

  predicate Hashed(buckets: map<nat, seq<nat>>, list: seq<nat>, b: nat, p: nat) {
    b in buckets && (p in buckets[b] <==> p in list && Bucket(p) == b)
  }

  /** The list and the hash table hold the same processes, the list each of them once. */
  ghost predicate TablesOk(list: seq<nat>, buckets: map<nat, seq<nat>>, kids: Kids) {
    && Pids.Distinct(list)
    && (forall p: nat :: p in list <==> p in kids && p != IDLE)
    && (forall p: nat :: p in list ==> p < Pids.MAX_PID)
    && (forall b: nat, p: nat :: b < HASH_BUCKETS ==> Hashed(buckets, list, b, p))
  }

  lemma BucketInRange(p: nat)
    ensures Bucket(p) < HASH_BUCKETS
  {
  }

  lemma TablesAdd(list: seq<nat>, buckets: map<nat, seq<nat>>, kids: Kids, c: nat, after: Kids)
    requires TablesOk(list, buckets, kids) && c !in kids && IDLE != c < Pids.MAX_PID && after.Keys == kids.Keys + {c}
    ensures Bucket(c) in buckets
    ensures TablesOk([c] + list, buckets[Bucket(c) := [c] + buckets[Bucket(c)]], after)
  {
    hide Bucket;
    BucketInRange(c);
    assert Hashed(buckets, list, Bucket(c), c);
    var more, table := [c] + list, buckets[Bucket(c) := [c] + buckets[Bucket(c)]];
    forall b: nat, p: nat | b < HASH_BUCKETS
      ensures Hashed(table, more, b, p)
    {
      assert Hashed(buckets, list, b, p);
    }
  }

  lemma TablesRemove(list: seq<nat>, buckets: map<nat, seq<nat>>, kids: Kids, c: nat, after: Kids)
    requires TablesOk(list, buckets, kids) && c in list && after.Keys == kids.Keys - {c}
    ensures Bucket(c) in buckets
    ensures TablesOk(Minus(list, c), buckets[Bucket(c) := Minus(buckets[Bucket(c)], c)], after)
    ensures |Minus(list, c)| == |list| - 1
  {
    hide Bucket, Minus;
    BucketInRange(c);
    assert Hashed(buckets, list, Bucket(c), c);
    var less, table := Minus(list, c), buckets[Bucket(c) := Minus(buckets[Bucket(c)], c)];
    MinusDistinct(list, c);
    forall p: nat
      ensures p in less <==> p in after && p != IDLE
    {
      MinusHas(list, c, p);
    }
    forall b: nat, p: nat | b < HASH_BUCKETS
      ensures Hashed(table, less, b, p)
    {
      assert Hashed(buckets, list, b, p);
      MinusHas(list, c, p);
      MinusHas(buckets[Bucket(c)], c, p);
    }
  }

  // ----- waiting -----

  predicate Dead(status: map<nat, Status>, c: nat) {
    c in status && status[c] == Zombie
  }

  /** What a process sleeping for child `pid`, or for any child when that is 0, can count on. */
  ghost predicate Hopes(kids: Kids, status: map<nat, Status>, p: nat, pid: nat) {
    && p in kids
    && if pid == 0 then kids[p] != [] && (forall i: nat :: i < |kids[p]| ==> !Dead(status, kids[p][i]))
       else pid in kids[p] && !Dead(status, pid)
  }

  /** The state of one process makes sense; `exiting` is the one process that may be dead with children. */
  ghost predicate Sane(kids: Kids, status: map<nat, Status>, wait: map<nat, Wait>, awaited: map<nat, nat>,
                       exiting: Link, p: nat) {
    && p in kids && p in status && p in wait
    && (wait[p] != Awake ==> status[p] == Sleeping)
    && (wait[p] == Child ==> p in awaited && Hopes(kids, status, p, awaited[p]))
    && (status[p] == Zombie && exiting != At(p) ==> kids[p] == [])
  }

  ghost predicate LivesOk(kids: Kids, status: map<nat, Status>, wait: map<nat, Wait>, awaited: map<nat, nat>,
                          exiting: Link) {
    && status.Keys == kids.Keys && wait.Keys == kids.Keys
    && (forall p: nat :: p in kids ==> Sane(kids, status, wait, awaited, exiting, p))
  }

  lemma SaneAt(kids: Kids, status: map<nat, Status>, wait: map<nat, Wait>, awaited: map<nat, nat>, exiting: Link,
               p: nat)
    requires LivesOk(kids, status, wait, awaited, exiting) && p in kids
    ensures Sane(kids, status, wait, awaited, exiting, p)
  {
  }

  /** Waking a process that is not dead. */
  lemma WakeKeeps(kids: Kids, status: map<nat, Status>, wait: map<nat, Wait>, awaited: map<nat, nat>, exiting: Link,
                  p: nat)
    requires LivesOk(kids, status, wait, awaited, exiting) && p in kids && !Dead(status, p)
    ensures LivesOk(kids, status[p := Runnable], wait[p := Awake], awaited, exiting)
  {
    var s, w := status[p := Runnable], wait[p := Awake];
    forall q: nat | q in kids
      ensures Sane(kids, s, w, awaited, exiting, q)
    {
      assert Sane(kids, status, wait, awaited, exiting, q);
      if w[q] == Child {
        StillHopes(kids, status, s, q, awaited[q]);
      }
    }
  }

  lemma StillHopes(kids: Kids, status: map<nat, Status>, s: map<nat, Status>, p: nat, pid: nat)
    requires Hopes(kids, status, p, pid) && (forall c: nat :: Dead(s, c) ==> Dead(status, c))
    ensures Hopes(kids, s, p, pid)
  {
  }

  /** Falling asleep for a child, having found none dead. */
  lemma SleepKeeps(kids: Kids, status: map<nat, Status>, wait: map<nat, Wait>, awaited: map<nat, nat>, p: nat, pid: nat)
    requires LivesOk(kids, status, wait, awaited, Null) && p in kids && !Dead(status, p) && Hopes(kids, status, p, pid)
    ensures LivesOk(kids, status[p := Sleeping], wait[p := Child], awaited[p := pid], Null)
  {
    var s, w, a := status[p := Sleeping], wait[p := Child], awaited[p := pid];
    forall q: nat | q in kids
      ensures Sane(kids, s, w, a, Null, q)
    {
      assert Sane(kids, status, wait, awaited, Null, q);
      if w[q] == Child {
        StillHopes(kids, status, s, q, a[q]);
      }
    }
  }

  /** Falling asleep for a timer or a semaphore. */
  lemma SleepOther(kids: Kids, status: map<nat, Status>, wait: map<nat, Wait>, awaited: map<nat, nat>, p: nat,
                   why: Wait)
    requires LivesOk(kids, status, wait, awaited, Null) && p in kids && !Dead(status, p)
             && (why == Timer || why == Ksem)
    ensures LivesOk(kids, status[p := Sleeping], wait[p := why], awaited, Null)
  {
    var s, w := status[p := Sleeping], wait[p := why];
    forall q: nat | q in kids
      ensures Sane(kids, s, w, awaited, Null, q)
    {
      assert Sane(kids, status, wait, awaited, Null, q);
      if w[q] == Child {
        StillHopes(kids, status, s, q, awaited[q]);
      }
    }
  }

  ghost predicate OnlyUnder(kids: Kids, p: nat, c: nat) {
    forall q: nat :: q in kids && q != p ==> c !in kids[q]
  }

  lemma OneParent(t: Tree, kids: Kids, stale: Link, loose: Link, p: nat, c: nat)
    requires LinksOk(t, kids, stale, loose) && c in t.parent && t.parent[c] == p
    ensures OnlyUnder(kids, p, c)
  {
    hide LinksOk;
    forall q: nat | q in kids && q != p
      ensures c !in kids[q]
    {
      if c in kids[q] {
        var i: nat :| i < |kids[q]| && kids[q][i] == c;
        Row(t, kids, stale, loose, q, i);
      }
    }
  }

  /** A process that dies wakes the parent that waits for it. */
  lemma DieKeeps(kids: Kids, status: map<nat, Status>, wait: map<nat, Wait>, awaited: map<nat, nat>, c: nat, p: nat)
    requires LivesOk(kids, status, wait, awaited, Null) && c in kids && p in kids && p != c && wait[c] == Awake
             && OnlyUnder(kids, p, c)
    ensures var s, w := status[c := Zombie], wait;
            if wait[p] == Child then LivesOk(kids, s[p := Runnable], w[p := Awake], awaited, At(c))
                  else LivesOk(kids, s, w, awaited, At(c))
  {
    var woken := wait[p] == Child;
    var s := if woken then status[c := Zombie][p := Runnable] else status[c := Zombie];
    var w := if woken then wait[p := Awake] else wait;
    forall q: nat | q in kids
      ensures Sane(kids, s, w, awaited, At(c), q)
    {
      assert Sane(kids, status, wait, awaited, Null, q);
      if w[q] == Child {
        assert q != p && c !in kids[q];
        HopesElsewhere(kids, status, s, c, q, awaited[q]);
      }
    }
  }

  lemma HopesElsewhere(kids: Kids, status: map<nat, Status>, s: map<nat, Status>, c: nat, p: nat, pid: nat)
    requires Hopes(kids, status, p, pid) && c !in kids[p] && (forall d: nat :: Dead(s, d) ==> d == c || Dead(status, d))
    ensures Hopes(kids, s, p, pid)
  {
    forall i: nat | i < |kids[p]|
      ensures kids[p][i] != c
    {
    }
  }

  /** A dying process hands its first child to init, and wakes init when that child is dead already. */
  lemma HandOver(kids: Kids, status: map<nat, Status>, wait: map<nat, Wait>, awaited: map<nat, nat>, c: nat)
    requires LivesOk(kids, status, wait, awaited, At(c)) && c in kids && INIT in kids && c != INIT && kids[c] != []
             && wait[c] == Awake
    requires !Dead(status, INIT)
    ensures var after, d := kids[c := kids[c][1..]][INIT := [kids[c][0]] + kids[INIT]], kids[c][0];
            if Dead(status, d) && wait[INIT] == Child then
                  LivesOk(after, status[INIT := Runnable], wait[INIT := Awake], awaited, At(c))
            else LivesOk(after, status, wait, awaited, At(c))
  {
    var d := kids[c][0];
    var after := kids[c := kids[c][1..]][INIT := [d] + kids[INIT]];
    var woken := Dead(status, d) && wait[INIT] == Child;
    var s := if woken then status[INIT := Runnable] else status;
    var w := if woken then wait[INIT := Awake] else wait;
    forall q: nat | q in after
      ensures Sane(after, s, w, awaited, At(c), q)
    {
      assert Sane(kids, status, wait, awaited, At(c), q);
      if w[q] == Child {
        StillHopes(kids, status, s, q, awaited[q]);
        if q == INIT {
          assert forall i: nat :: i < |after[q]| ==> after[q][i] == if i == 0 then d else kids[q][i - 1];
          assert awaited[q] in kids[q] ==> awaited[q] in after[q];
        }
      }
    }
  }

  lemma ExitDone(kids: Kids, status: map<nat, Status>, wait: map<nat, Wait>, awaited: map<nat, nat>, c: nat)
    requires LivesOk(kids, status, wait, awaited, At(c)) && c in kids && kids[c] == []
    ensures LivesOk(kids, status, wait, awaited, Null)
  {
    forall q: nat | q in kids
      ensures Sane(kids, status, wait, awaited, Null, q)
    {
      assert Sane(kids, status, wait, awaited, At(c), q);
    }
  }

  lemma ForkKeeps(kids: Kids, status: map<nat, Status>, wait: map<nat, Wait>, awaited: map<nat, nat>, p: nat, c: nat)
    requires LivesOk(kids, status, wait, awaited, Null) && p in kids && c !in kids && wait[p] == Awake
             && !Dead(status, p)
    ensures LivesOk(kids[c := []][p := [c] + kids[p]], status[c := Runnable], wait[c := Awake], awaited, Null)
  {
    var after, s, w := kids[c := []][p := [c] + kids[p]], status[c := Runnable], wait[c := Awake];
    forall q: nat | q in after
      ensures Sane(after, s, w, awaited, Null, q)
    {
      if q != c {
        assert Sane(kids, status, wait, awaited, Null, q);
        if w[q] == Child {
          StillHopes(kids, status, s, q, awaited[q]);
        }
      }
    }
  }

  lemma ReapKeeps(kids: Kids, status: map<nat, Status>, wait: map<nat, Wait>, awaited: map<nat, nat>, p: nat, k: nat)
    requires LivesOk(kids, status, wait, awaited, Null) && p in kids && k < |kids[p]| && wait[p] == Awake
             && !Dead(status, p)
    requires OnlyUnder(kids, p, kids[p][k])
    ensures var c := kids[p][k];
            LivesOk(kids[p := Without(kids[p], k)] - {c}, status - {c}, wait - {c}, awaited, Null)
  {
    var c := kids[p][k];
    var after, s, w := kids[p := Without(kids[p], k)] - {c}, status - {c}, wait - {c};
    forall q: nat | q in after
      ensures Sane(after, s, w, awaited, Null, q)
    {
      assert Sane(kids, status, wait, awaited, Null, q);
      if w[q] == Child {
        StillHopes(kids, status, s, q, awaited[q]);
      }
    }
  }
}
