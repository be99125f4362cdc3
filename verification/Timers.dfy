/**
 The kernel timer list.  Each timer holds only the ticks between its predecessor's deadline
 and its own.  The reference it is checked against gives every timer an absolute deadline
 `at`, in ticks since start, and the rank `born` of its insertion.
 */
module Timers {
  const WORD: nat := 0x1_0000_0000

  datatype Timer = Timer(id: nat, expires: nat)

  datatype Due = Due(at: nat, born: nat)

  type Deadlines = map<nat, Due>

  /** The ticks until timer `k - 1` of the list is due. */
  function Sum(list: seq<Timer>, k: nat): nat
    requires k <= |list|
  {
    if k == 0 then 0 else Sum(list, k - 1) + list[k - 1].expires
  }

  predicate Row(list: seq<Timer>, due: Deadlines, now: nat, count: nat, i: nat) {
    && i < |list| && list[i].id in due
    && now + Sum(list, i + 1) == due[list[i].id].at < now + WORD
    && due[list[i].id].born < count
  }

  /** Earlier deadlines first, and among equal deadlines the earlier insertion. */
  predicate Before(list: seq<Timer>, due: Deadlines, i: nat, j: nat) {
    && i < |list| && j < |list| && list[i].id in due && list[j].id in due
    && var d, e := due[list[i].id], due[list[j].id];
    d.at < e.at || (d.at == e.at && d.born < e.born)
  }

  predicate Listed(list: seq<Timer>, id: nat) {
    exists i: nat :: i < |list| && list[i].id == id
  }

  /** The delta list represents the deadlines. */
  ghost predicate Rep(list: seq<Timer>, due: Deadlines, now: nat, count: nat) {
    && (forall i: nat :: i < |list| ==> Row(list, due, now, count, i))
    && (forall i: nat, j: nat :: i < j < |list| ==> Before(list, due, i, j))
    && (forall id: nat :: id in due ==> Listed(list, id))
  }

  predicate HeadPositive(list: seq<Timer>) {
    |list| > 0 ==> list[0].expires > 0
  }

  // ----- sums -----

  lemma {:induction false} SumPrefix(a: seq<Timer>, b: seq<Timer>, k: nat)
    requires k <= |a| && k <= |b| && (forall i: nat :: i < k ==> a[i].expires == b[i].expires)
    ensures Sum(a, k) == Sum(b, k)
  {
    if k > 0 {
      SumPrefix(a, b, k - 1);
    }
  }

  /** Past index `k`, `b` follows `a` shifted by `s` places. */
  lemma {:induction false} SumShift(a: seq<Timer>, b: seq<Timer>, k: nat, s: nat, j: nat)
    requires k <= j <= |a| && j + s <= |b| && Sum(b, k + s) == Sum(a, k)
    requires forall i: nat :: k <= i < j ==> b[i + s].expires == a[i].expires
    ensures Sum(b, j + s) == Sum(a, j)
  {
    if k < j {
      SumShift(a, b, k, s, j - 1);
      assert b[j - 1 + s].expires == a[j - 1].expires;
    }
  }

  // ----- add_timer -----

  /** The list with the timer put before index `k`, `e` ticks after its predecessor. */
  function Added(list: seq<Timer>, k: nat, id: nat, e: nat): seq<Timer>
    requires k <= |list| && (k < |list| ==> e <= list[k].expires)
  {
    var rest := if k < |list| then [list[k].(expires := list[k].expires - e)] + list[k + 1..] else [];
    list[..k] + [Timer(id, e)] + rest
  }

  lemma AddedSums(list: seq<Timer>, k: nat, id: nat, e: nat, i: nat)
    requires k <= |list| && (k < |list| ==> e <= list[k].expires) && i <= |list|
    ensures |Added(list, k, id, e)| == |list| + 1
    ensures i <= k ==> Sum(Added(list, k, id, e), i) == Sum(list, i)
    ensures i == k ==> Sum(Added(list, k, id, e), k + 1) == Sum(list, k) + e
    ensures i > k ==> Sum(Added(list, k, id, e), i + 1) == Sum(list, i)
  {
    var b := Added(list, k, id, e);
    if i <= k {
      SumPrefix(list, b, i);
    }
    SumPrefix(list, b, k);
    if i > k {
      assert b[k].expires == e && b[k + 1].expires == list[k].expires - e;
      assert Sum(b, k + 1) == Sum(b, k) + b[k].expires && Sum(b, k + 2) == Sum(b, k + 1) + b[k + 1].expires;
      assert Sum(list, k + 1) == Sum(list, k) + list[k].expires;
      SumShift(list, b, k + 1, 1, i);
    }
  }

  /** Where a deadline `expires` ticks away belongs: after everything that is not later. */
  predicate Place(list: seq<Timer>, k: nat, expires: nat) {
    && k <= |list| && Sum(list, k) <= expires
    && (k < |list| ==> expires < Sum(list, k + 1))
  }

  lemma {:induction false} SumGrows(list: seq<Timer>, i: nat, j: nat)
    requires i <= j <= |list|
    ensures Sum(list, i) <= Sum(list, j)
  {
    if i < j {
      SumGrows(list, i, j - 1);
    }
  }

  lemma AddKeeps(list: seq<Timer>, due: Deadlines, now: nat, count: nat, k: nat, id: nat, expires: nat)
    requires Rep(list, due, now, count) && Place(list, k, expires) && id !in due && expires < WORD
    requires k < |list| ==> Sum(list, k + 1) == Sum(list, k) + list[k].expires
    ensures Rep(Added(list, k, id, expires - Sum(list, k)), due[id := Due(now + expires, count)], now, count + 1)
  {
    var e := expires - Sum(list, k);
    var b, after, more := Added(list, k, id, e), due[id := Due(now + expires, count)], count + 1;
    forall i: nat | i < |b|
      ensures Row(b, after, now, more, i)
    {
      AddedRow(list, due, now, count, k, id, expires, i);
    }
    forall i: nat, j: nat | i < j < |b|
      ensures Before(b, after, i, j)
    {
      AddedBefore(list, due, now, count, k, id, expires, i, j);
    }
    forall x: nat | x in after
      ensures Listed(b, x)
    {
      if x == id {
        assert b[k].id == id;
      } else {
        var i: nat :| i < |list| && list[i].id == x;
        assert b[if i < k then i else i + 1].id == x;
      }
    }
  }

  lemma AddedRow(list: seq<Timer>, due: Deadlines, now: nat, count: nat, k: nat, id: nat, expires: nat, i: nat)
    requires Rep(list, due, now, count) && Place(list, k, expires) && id !in due && expires < WORD && i <= |list|
    requires k < |list| ==> Sum(list, k + 1) == Sum(list, k) + list[k].expires
    ensures Row(Added(list, k, id, expires - Sum(list, k)), due[id := Due(now + expires, count)], now, count + 1, i)
  {
    var e := expires - Sum(list, k);
    if i < k {
      assert Row(list, due, now, count, i);
      AddedSums(list, k, id, e, i + 1);
    } else if i == k {
      AddedSums(list, k, id, e, k);
    } else {
      assert Row(list, due, now, count, i - 1);
      AddedSums(list, k, id, e, i);
    }
  }

  lemma AddedBefore(list: seq<Timer>, due: Deadlines, now: nat, count: nat, k: nat, id: nat, expires: nat, i: nat,
                    j: nat)
    requires Rep(list, due, now, count) && Place(list, k, expires) && id !in due && i < j <= |list|
    requires k < |list| ==> Sum(list, k + 1) == Sum(list, k) + list[k].expires
    ensures Before(Added(list, k, id, expires - Sum(list, k)), due[id := Due(now + expires, count)], i, j)
  {
    var b := Added(list, k, id, expires - Sum(list, k));
    if i == k {
      assert Row(list, due, now, count, j - 1) && b[j].id == list[j - 1].id;
      SumGrows(list, k + 1, j);
    } else if j == k {
      assert Row(list, due, now, count, i);
      SumGrows(list, i + 1, k);
    } else {
      var i0, j0 := if i < k then i else i - 1, if j < k then j else j - 1;
      assert Before(list, due, i0, j0) && Row(list, due, now, count, i0) && Row(list, due, now, count, j0);
    }
  }

  // ----- del_timer -----

  /** The list without timer `k`, whose ticks go to its successor. */
  function Removed(list: seq<Timer>, k: nat): seq<Timer>
    requires k < |list|
  {
    var rest := if k + 1 < |list| then [list[k + 1].(expires := list[k + 1].expires + list[k].expires)] + list[k + 2..]
          else [];
    list[..k] + rest
  }

  lemma RemovedSums(list: seq<Timer>, k: nat, i: nat)
    requires k < |list| && i < |list|
    ensures |Removed(list, k)| == |list| - 1
    ensures i <= k ==> Sum(Removed(list, k), i) == Sum(list, i)
    ensures i > k ==> Sum(Removed(list, k), i) == Sum(list, i + 1)
  {
    var b := Removed(list, k);
    SumPrefix(list, b, if i <= k then i else k);
    if i > k {
      assert b[k].expires == list[k + 1].expires + list[k].expires;
      assert Sum(b, k + 1) == Sum(b, k) + b[k].expires;
      assert Sum(list, k + 2) == Sum(list, k + 1) + list[k + 1].expires
             && Sum(list, k + 1) == Sum(list, k) + list[k].expires;
      SumShift(b, list, k + 1, 1, i);
    }
  }

  lemma RemoveKeeps(list: seq<Timer>, due: Deadlines, now: nat, count: nat, k: nat)
    requires Rep(list, due, now, count) && k < |list|
    ensures Rep(Removed(list, k), due - {list[k].id}, now, count)
  {
    var b, after := Removed(list, k), due - {list[k].id};
    forall i: nat | i < |b|
      ensures Row(b, after, now, count, i)
    {
      RemovedRow(list, due, now, count, k, i);
    }
    forall i: nat, j: nat | i < j < |b|
      ensures Before(b, after, i, j)
    {
      var i0, j0 := if i < k then i else i + 1, if j < k then j else j + 1;
      assert Before(list, due, i0, j0) && Row(b, after, now, count, i) && Row(b, after, now, count, j);
    }
    forall x: nat | x in after
      ensures Listed(b, x)
    {
      var i: nat :| i < |list| && list[i].id == x;
      assert b[if i < k then i else i - 1].id == x;
    }
  }

  lemma Distinct(list: seq<Timer>, due: Deadlines, now: nat, count: nat, i: nat, j: nat)
    requires Rep(list, due, now, count) && i < |list| && j < |list| && i != j
    ensures list[i].id != list[j].id
  {
    assert if i < j then Before(list, due, i, j) else Before(list, due, j, i);
  }

  lemma RemovedRow(list: seq<Timer>, due: Deadlines, now: nat, count: nat, k: nat, i: nat)
    requires Rep(list, due, now, count) && k < |list| && i < |list| - 1
    ensures Row(Removed(list, k), due - {list[k].id}, now, count, i)
  {
    hide Rep;
    var i0 := if i < k then i else i + 1;
    RowAt(list, due, now, count, i0);
    Distinct(list, due, now, count, i0, k);
    RemovedSums(list, k, i + 1);
  }

  lemma RowAt(list: seq<Timer>, due: Deadlines, now: nat, count: nat, i: nat)
    requires Rep(list, due, now, count) && i < |list|
    ensures Row(list, due, now, count, i)
  {
  }

  /** The successor's ticks and the removed timer's together still fit in a word. */
  lemma NoOverflow(list: seq<Timer>, due: Deadlines, now: nat, count: nat, k: nat)
    requires Rep(list, due, now, count) && k + 1 < |list|
    ensures list[k + 1].expires + list[k].expires < WORD
  {
    assert Row(list, due, now, count, k + 1);
    assert Sum(list, k + 2) == Sum(list, k + 1) + list[k + 1].expires
           && Sum(list, k + 1) == Sum(list, k) + list[k].expires;
  }

  // ----- a tick -----

  /** One tick off the head is one tick off every deadline. */
  lemma TickKeeps(list: seq<Timer>, due: Deadlines, now: nat, count: nat)
    requires Rep(list, due, now, count) && |list| > 0 && list[0].expires > 0
    ensures Rep(list[0 := list[0].(expires := list[0].expires - 1)], due, now + 1, count)
  {
    var b, later := list[0 := list[0].(expires := list[0].expires - 1)], now + 1;
    forall i: nat | i < |b|
      ensures Row(b, due, later, count, i)
    {
      assert Row(list, due, now, count, i);
      TickSum(list, b, i + 1);
    }
    forall i: nat, j: nat | i < j < |b|
      ensures Before(b, due, i, j)
    {
      assert Before(list, due, i, j);
    }
    forall x: nat | x in due
      ensures Listed(b, x)
    {
      var i: nat :| i < |list| && list[i].id == x;
      assert b[i].id == x;
    }
  }

  lemma {:induction false} TickSum(list: seq<Timer>, b: seq<Timer>, k: nat)
    requires 0 < k <= |list| && list[0].expires > 0 && b == list[0 := list[0].(expires := list[0].expires - 1)]
    ensures Sum(b, k) + 1 == Sum(list, k)
  {
    if k > 1 {
      TickSum(list, b, k - 1);
    } else {
      assert Sum(list, 0) == 0 && Sum(b, 0) == 0;
    }
  }

  /** With a positive head, every deadline is in the future. */
  lemma AllAhead(list: seq<Timer>, due: Deadlines, now: nat, count: nat, id: nat)
    requires Rep(list, due, now, count) && HeadPositive(list) && id in due
    ensures due[id].at > now
  {
    var i: nat :| i < |list| && list[i].id == id;
    assert Row(list, due, now, count, i);
    SumGrows(list, 1, i + 1);
    assert Sum(list, 1) == Sum(list, 0) + list[0].expires;
  }

  /** What a tick that ends at time `now` must wake: exactly the timers due then, oldest first. */
  ghost predicate Fires(due: Deadlines, now: nat, fired: seq<nat>) {
    && (forall i: nat :: i < |fired| ==> fired[i] in due && due[fired[i]].at == now)
    && (forall id: nat :: id in due && due[id].at == now ==> id in fired)
    && (forall i: nat, j: nat :: i < j < |fired| ==>
         fired[i] in due && fired[j] in due && due[fired[i]].born < due[fired[j]].born)
  }

  lemma Unlisted(list: seq<Timer>, due: Deadlines, now: nat, count: nat, id: nat)
    requires Rep(list, due, now, count) && (forall i: nat :: i < |list| ==> list[i].id != id)
    ensures id !in due && due - {id} == due
  {
    assert id in due ==> Listed(list, id);
  }

  predicate Younger(all: Deadlines, id: nat, later: nat) {
    id in all && later in all && all[id].born < all[later].born
  }

  /** In the middle of a tick: `fired` have been woken, `due` are left. */
  ghost predicate Progress(all: Deadlines, due: Deadlines, now: nat, fired: seq<nat>) {
    && (forall id: nat :: id in due ==> id in all && due[id] == all[id])
    && (forall id: nat :: id in all ==> (id in due <==> id !in fired))
    && (forall i: nat :: i < |fired| ==> fired[i] in all && all[fired[i]].at == now)
    && (forall i: nat, j: nat :: i < j < |fired| ==> Younger(all, fired[i], fired[j]))
    && (forall i: nat, id: nat :: i < |fired| && id in due && due[id].at == now ==> Younger(all, fired[i], id))
  }

  lemma ProgressStart(all: Deadlines, now: nat)
    ensures Progress(all, all, now, [])
  {
  }

  /** The head of the list is the next to fire. */
  lemma Front(list: seq<Timer>, due: Deadlines, now: nat, count: nat, all: Deadlines, fired: seq<nat>)
    requires Rep(list, due, now, count) && |list| > 0 && list[0].expires == 0 && Progress(all, due, now, fired)
    ensures Progress(all, due - {list[0].id}, now, fired + [list[0].id])
  {
    assert Row(list, due, now, count, 0) && Sum(list, 1) == Sum(list, 0) + list[0].expires;
    var head, after := list[0].id, due - {list[0].id};
    forall id: nat | id in after && after[id].at == now
      ensures Younger(all, head, id)
    {
      assert Listed(list, id);
      var i: nat :| i < |list| && list[i].id == id;
      assert Before(list, due, 0, i);
    }
  }

  lemma Drained(list: seq<Timer>, all: Deadlines, due: Deadlines, now: nat, count: nat, fired: seq<nat>)
    requires Rep(list, due, now, count) && HeadPositive(list) && Progress(all, due, now, fired)
    ensures Fires(all, now, fired) && due == DueLater(all, now)
  {
    forall id: nat | id in due
      ensures due[id].at != now
    {
      AllAhead(list, due, now, count, id);
    }
  }

  lemma NoTimers(list: seq<Timer>, due: Deadlines, now: nat, count: nat)
    requires Rep(list, due, now, count) && list == []
    ensures due == map[] && Rep(list, due, now + 1, count)
  {
    forall id: nat
      ensures id !in due
    {
      Unlisted(list, due, now, count, id);
    }
  }

  // ----- the reference -----

  datatype Op = Add(id: nat, expires: nat) | Del(id: nat) | Tick

  datatype Ref = Ref(due: Deadlines, now: nat, count: nat)

  function DueLater(due: Deadlines, now: nat): Deadlines {
    map id | id in due && due[id].at != now :: due[id]
  }

  predicate Allowed(r: Ref, op: Op) {
    op.Add? ==> op.id !in r.due && 0 < op.expires < WORD
  }

  function Next(r: Ref, op: Op): Ref {
    match op
    case Add(id, expires) => Ref(r.due[id := Due(r.now + expires, r.count)], r.now, r.count + 1)
    case Del(id) => r.(due := r.due - {id})
    case Tick => r.(due := DueLater(r.due, r.now + 1), now := r.now + 1)
  }

  function Run(r: Ref, ops: seq<Op>): Ref {
    if ops == [] then r else Next(Run(r, ops[..|ops| - 1]), ops[|ops| - 1])
  }

  ghost predicate Legal(r: Ref, ops: seq<Op>) {
    forall k: nat :: k < |ops| ==> Allowed(Run(r, ops[..k]), ops[k])
  }

  function Ticks(ops: seq<Op>): nat {
    if ops == [] then 0 else Ticks(ops[..|ops| - 1]) + if ops[|ops| - 1] == Tick then 1 else 0
  }

  lemma LegalFront(r: Ref, ops: seq<Op>)
    requires Legal(r, ops) && ops != []
    ensures Legal(r, ops[..|ops| - 1]) && Allowed(Run(r, ops[..|ops| - 1]), ops[|ops| - 1])
  {
    var front := ops[..|ops| - 1];
    forall k: nat | k < |front|
      ensures Allowed(Run(r, front[..k]), front[k])
    {
      assert front[..k] == ops[..k];
      assert Allowed(Run(r, ops[..k]), ops[k]);
    }
  }

  /** A timer that is not deleted waits with its deadline until that tick comes. */
  lemma {:induction false} Waits(r: Ref, ops: seq<Op>, id: nat)
    requires Legal(r, ops) && id in r.due && Del(id) !in ops
    requires r.now + Ticks(ops) < r.due[id].at
    ensures Run(r, ops).now == r.now + Ticks(ops)
    ensures id in Run(r, ops).due && Run(r, ops).due[id] == r.due[id]
  {
    if ops != [] {
      LegalFront(r, ops);
      Waits(r, ops[..|ops| - 1], id);
    }
  }

  /** A timer added for `expires` ticks fires on that tick: it is due then, and on no tick before. */
  lemma FiresOnTime(r: Ref, id: nat, expires: nat, ops: seq<Op>)
    requires Allowed(r, Add(id, expires)) && Legal(Next(r, Add(id, expires)), ops)
    requires Del(id) !in ops && Ticks(ops) < expires
    ensures var s := Run(Next(r, Add(id, expires)), ops);
            && id in s.due
            && (s.due[id].at == s.now + 1 <==> Ticks(ops) + 1 == expires)
  {
    Waits(Next(r, Add(id, expires)), ops, id);
  }

  class TimerList {
    var list: seq<Timer>
    ghost var due: Deadlines
    ghost var now: nat
    ghost var count: nat

    ghost predicate Valid()
      reads this
    {
      Rep(list, due, now, count) && HeadPositive(list)
    }

    constructor ()
      ensures Valid() && due == map[] && now == 0 && count == 0
    {
      list, due, now, count := [], map[], 0, 0;
    }

    method AddTimer(id: nat, expires: nat)
      requires Valid() && id !in due && 0 < expires < WORD
      modifies this
      ensures Valid() && now == old(now) && count == old(count) + 1
      ensures due == old(due)[id := Due(now + expires, old(count))]
    {
      hide Rep;
      var e: nat := expires;
      var k: nat := 0;
      ghost var was := list;
      while k < |list|
        invariant k <= |list| && Sum(list, k) + e == expires && (k == 0 || list[0].expires <= expires)
        invariant list == was && Valid() && now == old(now) && count == old(count) && due == old(due)
      {
        assert Sum(list, k + 1) == Sum(list, k) + list[k].expires;
        if e < list[k].expires {
          break;
        }
        e := e - list[k].expires;
        k := k + 1;
      }
      assert k < |list| ==> Sum(list, k + 1) == Sum(list, k) + list[k].expires;
      AddKeeps(list, due, now, count, k, id, expires);
      if k < |list| {
        list := list[k := list[k].(expires := list[k].expires - e)];
      }
      list := list[..k] + [Timer(id, e)] + list[k..];
      assert list == Added(was, k, id, e);
      due := due[id := Due(now + expires, count)];
      count := count + 1;
    }

    method DelTimer(id: nat)
      requires Rep(list, due, now, count)
      modifies this`list, this`due
      ensures Rep(list, due, now, count) && due == old(due) - {id}
      ensures old(HeadPositive(list)) ==> HeadPositive(list)
      ensures |old(list)| > 0 && old(list)[0] == Timer(id, 0) ==> list == old(list)[1..]
    {
      hide Rep;
      ghost var was := list;
      var k: nat := 0;
      while k < |list| && list[k].id != id
        invariant k <= |list| && list == was && Rep(list, due, now, count) && due == old(due)
        invariant forall i: nat :: i < k ==> list[i].id != id
      {
        k := k + 1;
      }
      if k < |list| {
        RemoveKeeps(list, due, now, count, k);
        if list[k].expires != 0 {
          if k + 1 < |list| {
            NoOverflow(list, due, now, count, k);
            assert list[k + 1].expires + list[k].expires < WORD;
            list := list[k + 1 := list[k + 1].(expires := list[k + 1].expires + list[k].expires)];
          }
        }
        list := list[..k] + list[k + 1..];
        assert list == Removed(was, k);
      } else {
        Unlisted(list, due, now, count, id);
      }
      due := due - {id};
    }

    method RunTimerList() returns (fired: seq<nat>)
      requires Valid()
      modifies this
      ensures Valid() && Ref(due, now, count) == Next(old(Ref(due, now, count)), Tick)
      ensures Fires(old(due), now, fired)
    {
      hide Rep;
      fired := [];
      ghost var all := due;
      if |list| > 0 {
        assert list[0].expires != 0;
        TickKeeps(list, due, now, count);
        list := list[0 := list[0].(expires := list[0].expires - 1)];
        now := now + 1;
        ProgressStart(all, now);
        while |list| > 0 && list[0].expires == 0
          invariant Rep(list, due, now, count) && now == old(now) + 1 && count == old(count)
          invariant Progress(all, due, now, fired)
          decreases |list|
        {
          Front(list, due, now, count, all, fired);
          fired := fired + [list[0].id];
          DelTimer(list[0].id);
        }
        Drained(list, all, due, now, count, fired);
      } else {
        NoTimers(list, due, now, count);
        now := now + 1;
      }
    }

    /** One call, with the processes it wakes. */
    method Perform(op: Op) returns (fired: seq<nat>)
      requires Valid() && Allowed(Ref(due, now, count), op)
      modifies this
      ensures Valid() && Ref(due, now, count) == Next(old(Ref(due, now, count)), op)
      ensures if op == Tick then Fires(old(due), now, fired) else fired == []
    {
      hide Rep, Fires;
      fired := [];
      match op {
        case Add(id, expires) => AddTimer(id, expires);
        case Del(id) => DelTimer(id);
        case Tick => fired := RunTimerList();
      }
    }
  }

  ghost predicate Woken(ops: seq<Op>, log: seq<seq<nat>>, k: nat) {
    && k < |ops| && k < |log|
    && var r := Run(Ref(map[], 0, 0), ops[..k]);
    if ops[k] == Tick then Fires(r.due, r.now + 1, log[k]) else log[k] == []
  }

  lemma RunNone(ops: seq<Op>)
    ensures Run(Ref(map[], 0, 0), ops[..0]) == Ref(map[], 0, 0)
  {
  }

  lemma RunOn(ops: seq<Op>, n: nat)
    requires n < |ops|
    ensures Run(Ref(map[], 0, 0), ops[..n + 1]) == Next(Run(Ref(map[], 0, 0), ops[..n]), ops[n])
    ensures Run(Ref(map[], 0, 0), ops[..n + 1]).now ==
            Run(Ref(map[], 0, 0), ops[..n]).now + if ops[n] == Tick then 1 else 0
  {
    assert ops[..n + 1][..n] == ops[..n];
  }

  lemma StillWoken(ops: seq<Op>, was: seq<seq<nat>>, log: seq<seq<nat>>)
    requires was <= log && forall k: nat :: k < |was| ==> Woken(ops, was, k)
    ensures forall k: nat :: k < |was| ==> Woken(ops, log, k)
  {
    hide Fires, Run;
    forall k: nat | k < |was|
      ensures Woken(ops, log, k)
    {
      assert Woken(ops, was, k);
    }
  }

  /** Any mix of calls: the delta list wakes on every tick exactly what the reference says. */
  method Execute(ops: seq<Op>) returns (log: seq<seq<nat>>)
    requires Legal(Ref(map[], 0, 0), ops)
    ensures |log| == |ops| && forall k: nat :: k < |ops| ==> Woken(ops, log, k)
  {
    hide Rep, Fires, Run, Next, Allowed;
    var timers := new TimerList();
    log := [];
    RunNone(ops);
    var n: nat := 0;
    while n < |ops|
      invariant n <= |ops| && |log| == n && timers.Valid() && fresh(timers)
      invariant Ref(timers.due, timers.now, timers.count) == Run(Ref(map[], 0, 0), ops[..n])
      invariant forall k: nat :: k < n ==> Woken(ops, log, k)
    {
      assert Allowed(Run(Ref(map[], 0, 0), ops[..n]), ops[n]);
      RunOn(ops, n);
      ghost var was := log;
      var fired := timers.Perform(ops[n]);
      log := log + [fired];
      StillWoken(ops, was, log);
      n := n + 1;
    }
  }
}
