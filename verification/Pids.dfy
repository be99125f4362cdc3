/**
 Process numbers: `get_pid` with its two static variables, and the process list that
 `do_fork` extends and `do_wait` shortens.
 */
module Pids {
  const MAX_PROCESS: nat := 4096
  const MAX_PID: nat := 2 * MAX_PROCESS

  // ----- pigeonhole -----

  function Upto(n: nat): (s: set<nat>)
    ensures |s| == n && forall v: nat :: v in s <==> 1 <= v <= n
  {
    if n == 0 then {} else Upto(n - 1) + {n}
  }

  ghost function Elems(s: seq<nat>): set<nat> {
    set x | x in s
  }

  lemma {:induction false} Members(s: seq<nat>)
    ensures |Elems(s)| <= |s|
  {
    if s != [] {
      Members(s[1..]);
      assert Elems(s) == Elems(s[1..]) + {s[0]};
    }
  }

  lemma SubsetSize(a: set<nat>, b: set<nat>)
    ensures a <= b ==> |a| <= |b|
  {
    assert a <= b ==> b == a + (b - a);
  }

  /** So many processes cannot use up every number. */
  lemma SomeUnused(procs: seq<nat>)
    requires |procs| < MAX_PID - 1
    ensures exists v: nat :: 1 <= v < MAX_PID && v !in procs
  {
    var all, live := Upto(MAX_PID - 1), Elems(procs);
    Members(procs);
    SubsetSize(all, live);
    var v :| v in all && v !in live;
    assert 1 <= v < MAX_PID && v !in procs;
  }

  // ----- the invariant -----

  /** No live number lies strictly between the two. */
  ghost predicate Gap(procs: seq<nat>, last: nat, safe: nat) {
    forall i: nat :: i < |procs| ==> !(last < procs[i] < safe)
  }

  ghost predicate Distinct(procs: seq<nat>) {
    forall i: nat, j: nat :: i < j < |procs| ==> procs[i] != procs[j]
  }

  ghost predicate InRange(procs: seq<nat>) {
    forall i: nat :: i < |procs| ==> 1 <= procs[i] < MAX_PID
  }

  predicate Left(start: nat, last: nat, wrapped: bool, v: nat) {
    if wrapped then start <= v < MAX_PID || 1 <= v < last else start <= v < last
  }

  /** Every candidate passed over since `start` belongs to a live process. */
  ghost predicate Tried(procs: seq<nat>, start: nat, last: nat, wrapped: bool) {
    && 1 <= start < MAX_PID && 1 <= last <= MAX_PID && (wrapped ==> last <= start) && (!wrapped ==> start <= last)
    && (forall v: nat :: Left(start, last, wrapped, v) ==> v in procs)
  }

  /** The number after `v` in cyclic order. */
  function After(v: nat): nat { if v + 1 >= MAX_PID then 1 else v + 1 }

  /** The first unused number among the `n` that begin with `v`, or 0. */
  function FirstUnused(procs: seq<nat>, v: nat, n: nat): nat
    decreases n
  {
    if n == 0 then 0 else if v !in procs then v else FirstUnused(procs, After(v), n - 1)
  }

  /** How far `pid` lies ahead of `v`. */
  function Ahead(v: nat, pid: nat): int {
    if pid >= v then pid - v else MAX_PID - 1 - v + pid
  }

  /** What a search that passed over live numbers only has found is the first unused one. */
  lemma {:induction false} FoundFirst(procs: seq<nat>, v: nat, pid: nat, n: nat)
    requires 1 <= v < MAX_PID && 1 <= pid < MAX_PID && pid !in procs && Ahead(v, pid) < n
    requires forall u: nat :: Left(v, pid, pid < v, u) ==> u in procs
    ensures FirstUnused(procs, v, n) == pid
    decreases n
  {
    if v != pid {
      assert Left(v, pid, pid < v, v);
      forall u: nat | Left(After(v), pid, pid < After(v), u)
        ensures u in procs
      {
        assert Left(v, pid, pid < v, u);
      }
      FoundFirst(procs, After(v), pid, n - 1);
    }
  }

  /** The candidates still to come. */
  function Rank(start: nat, last: nat, wrapped: bool): int {
    if wrapped then start - last else MAX_PID - last + MAX_PID
  }

  /** Passing over a live candidate: the search never comes round to where it began. */
  lemma PassOver(procs: seq<nat>, start: nat, last: nat, wrapped: bool)
    requires Tried(procs, start, last, wrapped) && last < MAX_PID && last in procs && |procs| < MAX_PROCESS
    ensures wrapped ==> last < start
    ensures Tried(procs, start, last + 1, wrapped)
    ensures last + 1 == MAX_PID ==> !wrapped && Tried(procs, start, 1, true)
  {
    SomeUnused(procs);
    var free: nat :| 1 <= free < MAX_PID && free !in procs;
    assert !Left(start, last, wrapped, free);
    forall v: nat | Left(start, last + 1, wrapped, v)
      ensures v in procs
    {
      assert v == last || Left(start, last, wrapped, v);
    }
    if last + 1 == MAX_PID {
      forall v: nat | Left(start, 1, true, v)
        ensures v in procs
      {
        assert Left(start, last + 1, wrapped, v);
      }
    }
  }

  lemma TriedAll(procs: seq<nat>, start: nat, last: nat, wrapped: bool)
    requires Tried(procs, start, last, wrapped) && last < MAX_PID && last !in procs
    ensures last == FirstUnused(procs, start, MAX_PID - 1)
  {
    assert Left(start, start, true, start);
    FoundFirst(procs, start, last, MAX_PID - 1);
  }

  class PidAllocator {
    var lastPid: nat
    var nextSafe: nat
    var procs: seq<nat>

    ghost predicate Valid()
      reads this
    {
      && 1 <= lastPid <= MAX_PID && nextSafe <= MAX_PID && (lastPid < MAX_PID ==> lastPid < nextSafe)
      && Gap(procs, lastPid, nextSafe) && Distinct(procs) && InRange(procs)
      && |procs| <= MAX_PROCESS
    }

    constructor ()
      ensures Valid() && procs == [] && lastPid == MAX_PID
    {
      lastPid, nextSafe, procs := MAX_PID, MAX_PID, [];
    }

    /** Scans the list for a number of its own, starting at the present candidate. */
    method Search()
      requires 1 <= lastPid < MAX_PID && |procs| < MAX_PROCESS && InRange(procs)
      modifies this`lastPid, this`nextSafe
      ensures 1 <= lastPid < nextSafe <= MAX_PID && lastPid < MAX_PID
      ensures lastPid !in procs && Gap(procs, lastPid, nextSafe)
      ensures lastPid == FirstUnused(procs, old(lastPid), MAX_PID - 1)
    {
      hide Tried, FirstUnused;
      ghost var start, wrapped := lastPid, false;
      Begin(procs, start);
      nextSafe := MAX_PID;
      var again := true;
      while again
        invariant 1 <= lastPid < MAX_PID && lastPid < nextSafe <= MAX_PID
        invariant Tried(procs, start, lastPid, wrapped) && (wrapped ==> lastPid <= start)
        invariant again ==> nextSafe == MAX_PID
        invariant !again ==> lastPid !in procs && Gap(procs, lastPid, nextSafe)
        decreases Rank(start, lastPid, wrapped), again
      {
        again := false;
        ghost var rank := Rank(start, lastPid, wrapped);
        var i: nat := 0;
        while i < |procs|
          invariant i <= |procs| && !again
          invariant 1 <= lastPid < MAX_PID && lastPid < nextSafe <= MAX_PID
          invariant Tried(procs, start, lastPid, wrapped) && (wrapped ==> lastPid <= start)
          invariant Rank(start, lastPid, wrapped) <= rank
          invariant forall h: nat :: h < i ==> procs[h] != lastPid && !(lastPid < procs[h] < nextSafe)
        {
          if procs[i] == lastPid {
            PassOver(procs, start, lastPid, wrapped);
            lastPid := lastPid + 1;
            if lastPid >= nextSafe {
              if lastPid >= MAX_PID {
                lastPid := 1;
                wrapped := true;
              }
              nextSafe := MAX_PID;
              again := true;
              break;
            }
          } else if procs[i] > lastPid && nextSafe > procs[i] {
            nextSafe := procs[i];
          }
          i := i + 1;
        }
      }
      TriedAll(procs, start, lastPid, wrapped);
    }

    /** The first number after the last one given out that no live process has. */
    method GetPid() returns (pid: nat)
      requires Valid() && |procs| < MAX_PROCESS
      modifies this`lastPid, this`nextSafe
      ensures Valid() && 1 <= pid < MAX_PID && pid !in procs && pid == lastPid < nextSafe
      ensures pid == FirstUnused(procs, After(old(lastPid)), MAX_PID - 1)
    {
      lastPid := lastPid + 1;
      if lastPid >= MAX_PID {
        lastPid := 1;
        Search();
      } else if lastPid >= nextSafe {
        Search();
      }
      return lastPid;
    }

    /**
     The part of `do_fork` that numbers the new process and links it; it fails when there are too many.
     The count of processes includes idle, which is not on the list.
     */
    method Fork() returns (pid: nat)
      requires Valid()
      modifies this
      ensures Valid()
      ensures |old(procs)| + 1 >= 4096 ==> pid == 0 && procs == old(procs)
      ensures |old(procs)| + 1 < 4096 ==>
                1 <= pid < 8192 && pid !in old(procs) && procs == [pid] + old(procs)
                && pid == lastPid == FirstUnused(old(procs), After(old(lastPid)), MAX_PID - 1)
      ensures |old(procs)| + 1 >= MAX_PROCESS ==> lastPid == old(lastPid)
    {
      if |procs| + 1 >= MAX_PROCESS {
        return 0;
      }
      pid := GetPid();
      procs := [pid] + procs;
    }

    /** The part of `do_wait` that takes a dead child off the list. */
    method Reap(k: nat)
      requires Valid() && k < |procs|
      modifies this`procs
      ensures Valid() && procs == old(procs)[..k] + old(procs)[k + 1..] && old(procs)[k] !in procs
    {
      procs := procs[..k] + procs[k + 1..];
    }
  }

  datatype Event = Forked | Reaped(index: nat)

  /** The live numbers, newest first, the last one given out, and all that were given out; 0 is a refusal. */
  datatype Numbers = Numbers(live: seq<nat>, last: nat, issued: seq<nat>)

  function Step(n: Numbers, e: Event): Numbers {
    match e
    case Forked =>
      if |n.live| + 1 >= MAX_PROCESS then n.(issued := n.issued + [0])
      else
        var pid := FirstUnused(n.live, After(n.last), MAX_PID - 1);
        Numbers([pid] + n.live, pid, n.issued + [pid])
    case Reaped(k) => if k < |n.live| then n.(live := n.live[..k] + n.live[k + 1..]) else n
  }

  /** Forks and reaps with no second variable and no gap: a fork takes the first unused number after the last. */
  function Simple(events: seq<Event>): Numbers {
    if events == [] then Numbers([], MAX_PID, [])
    else Step(Simple(events[..|events| - 1]), events[|events| - 1])
  }

  /** Any run of forks and reaps gives out the numbers that the simple search gives out; live ones stay distinct. */
  method Execute(events: seq<Event>) returns (n: Numbers, safe: nat)
    ensures n == Simple(events) && Distinct(n.live) && InRange(n.live)
    ensures Gap(n.live, n.last, safe) && (n.last < MAX_PID ==> n.last < safe)
  {
    hide FirstUnused;
    var pids := new PidAllocator();
    var issued := [];
    for k := 0 to |events|
      invariant pids.Valid() && fresh(pids)
      invariant Numbers(pids.procs, pids.lastPid, issued) == Simple(events[..k])
    {
      assert events[..k + 1][..k] == events[..k];
      match events[k] {
        case Forked =>
          var pid := pids.Fork();
          issued := issued + [pid];
        case Reaped(i) =>
          if i < |pids.procs| {
            pids.Reap(i);
          }
      }
    }
    assert events[..|events|] == events;
    return Numbers(pids.procs, pids.lastPid, issued), pids.nextSafe;
  }

  lemma Begin(procs: seq<nat>, start: nat)
    requires 1 <= start < MAX_PID
    ensures Tried(procs, start, start, false)
  {
  }
}
