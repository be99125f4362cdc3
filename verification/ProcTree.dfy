/**
 The process tree threaded through `parent`, `cptr`, `optr` and `yptr`.  Processes are named
 by their number; 0 is idle and 1 is init.  `kids` lists the children of a process from its
 youngest, the way `cptr` and then `optr` reach them.
 */
module ProcTree {
  datatype Link = Null | At(proc: nat)

  datatype Tree = Tree(parent: map<nat, nat>, cptr: map<nat, Link>, optr: map<nat, Link>, yptr: map<nat, Link>)

  type Kids = map<nat, seq<nat>>

  function Nth(s: seq<nat>, i: int): Link {
    if 0 <= i < |s| then At(s[i]) else Null
  }

  /** Child `i` of `p` is linked to its neighbours; the link up from the first child may be stale. */
  predicate Linked(t: Tree, kids: Kids, stale: Link, p: nat, i: nat) {
    && p in kids && i < |kids[p]|
    && var c := kids[p][i];
    && c in t.parent && t.parent[c] == p
    && c in t.optr && t.optr[c] == Nth(kids[p], i + 1)
    && c in t.yptr && ((i == 0 && stale == At(p)) || t.yptr[c] == Nth(kids[p], i - 1))
  }

  predicate Headed(t: Tree, kids: Kids, p: nat) {
    p in kids && p in t.cptr && t.cptr[p] == Nth(kids[p], 0)
  }

  predicate Different(kids: Kids, p: nat, i: nat, j: nat) {
    p in kids && i < |kids[p]| && j < |kids[p]| && kids[p][i] != kids[p][j]
  }

  predicate Member(kids: Kids, loose: Link, p: nat, i: nat) {
    p in kids && i < |kids[p]| && kids[p][i] in kids && At(kids[p][i]) != loose
  }

  /** The links describe `kids`, leaving out the loose process, which is on no list. */
  ghost predicate LinksOk(t: Tree, kids: Kids, stale: Link, loose: Link) {
    && (forall p: nat :: p in kids ==> Headed(t, kids, p))
    && (forall p: nat, i: nat :: p in kids && i < |kids[p]| ==> Linked(t, kids, stale, p, i))
    && (forall p: nat, i: nat, j: nat :: p in kids && i < j < |kids[p]| ==> Different(kids, p, i, j))
    && (forall p: nat, i: nat :: p in kids && i < |kids[p]| ==> Member(kids, loose, p, i))
    && (loose.At? ==> loose.proc in kids)
  }

  /** Every process but idle is a child of its parent, which is older. */
  ghost predicate Rooted(t: Tree, kids: Kids, born: map<nat, nat>) {
    && 0 in kids && t.parent.Keys == kids.Keys - {0} && born.Keys == kids.Keys
    && (forall c: nat :: c in t.parent ==> t.parent[c] in kids && c in kids[t.parent[c]] && born[t.parent[c]] < born[c])
  }

  lemma Row(t: Tree, kids: Kids, stale: Link, loose: Link, p: nat, i: nat)
    requires LinksOk(t, kids, stale, loose) && p in kids && i < |kids[p]|
    ensures Linked(t, kids, stale, p, i) && Member(kids, loose, p, i)
  {
  }

  lemma Head(t: Tree, kids: Kids, stale: Link, loose: Link, p: nat)
    requires LinksOk(t, kids, stale, loose) && p in kids
    ensures Headed(t, kids, p)
  {
  }

  lemma Differ(t: Tree, kids: Kids, stale: Link, loose: Link, p: nat, i: nat, j: nat)
    requires LinksOk(t, kids, stale, loose) && p in kids && i < |kids[p]| && j < |kids[p]| && i != j
    ensures kids[p][i] != kids[p][j]
  {
    assert if i < j then Different(kids, p, i, j) else Different(kids, p, j, i);
  }

  // ----- taking the first child off a list -----

  function Popped(t: Tree, p: nat): Tree
    requires p in t.cptr && t.cptr[p].At? && t.cptr[p].proc in t.optr
  {
    t.(cptr := t.cptr[p := t.optr[t.cptr[p].proc]])
  }

  lemma PopRow(t: Tree, kids: Kids, p: nat, stale: Link, q: nat, i: nat)
    requires LinksOk(t, kids, stale, Null) && p in kids && kids[p] != [] && (stale.At? ==> stale == At(p))
    requires p in t.cptr && t.cptr[p] == At(kids[p][0]) && kids[p][0] in t.optr
    requires q in kids && i < |kids[p := kids[p][1..]][q]|
    ensures Linked(Popped(t, p), kids[p := kids[p][1..]], At(p), q, i)
    ensures Member(kids[p := kids[p][1..]], At(kids[p][0]), q, i)
  {
    hide LinksOk;
    var i0 := if q == p then i + 1 else i;
    Row(t, kids, stale, Null, q, i0);
    Row(t, kids, stale, Null, p, 0);
    if q == p {
      Differ(t, kids, stale, Null, p, 0, i0);
    }
  }

  lemma PopKeeps(t: Tree, kids: Kids, p: nat, stale: Link)
    requires LinksOk(t, kids, stale, Null) && p in kids && kids[p] != [] && (stale.At? ==> stale == At(p))
    ensures p in t.cptr && t.cptr[p] == At(kids[p][0]) && kids[p][0] in t.optr
    ensures LinksOk(Popped(t, p), kids[p := kids[p][1..]], At(p), At(kids[p][0]))
  {
    Head(t, kids, stale, Null, p);
    Row(t, kids, stale, Null, p, 0);
    var s, after, c := Popped(t, p), kids[p := kids[p][1..]], kids[p][0];
    forall q: nat | q in after
      ensures Headed(s, after, q)
    {
      hide LinksOk;
      Head(t, kids, stale, Null, q);
    }
    forall q: nat, i: nat | q in after && i < |after[q]|
      ensures Linked(s, after, At(p), q, i) && Member(after, At(c), q, i)
    {
      hide LinksOk, Linked;
      PopRow(t, kids, p, stale, q, i);
    }
    forall q: nat, i: nat, j: nat | q in after && i < j < |after[q]|
      ensures Different(after, q, i, j)
    {
      hide LinksOk;
      if q == p {
        Differ(t, kids, stale, Null, q, i + 1, j + 1);
      } else {
        Differ(t, kids, stale, Null, q, i, j);
      }
    }
    hide Linked, Headed, Different;
  }

  // ----- putting a process first on a list -----

  function Pushed(t: Tree, p: nat, c: nat): Tree
    requires p in t.cptr
  {
    var first := t.cptr[p];
    var y := t.yptr[c := Null];
    Tree(t.parent[c := p], t.cptr[p := At(c)], t.optr[c := first], if first.At? then y[first.proc := At(c)] else y)
  }

  lemma PushKeeps(t: Tree, kids: Kids, stale: Link, p: nat, c: nat)
    requires LinksOk(t, kids, stale, At(c)) && p in kids && stale != At(p)
    ensures p in t.cptr
    ensures LinksOk(Pushed(t, p, c), kids[p := [c] + kids[p]], stale, Null)
  {
    Head(t, kids, stale, At(c), p);
    var s, after := Pushed(t, p, c), kids[p := [c] + kids[p]];
    forall q: nat | q in after
      ensures Headed(s, after, q)
    {
      hide LinksOk;
      Head(t, kids, stale, At(c), q);
    }
    forall q: nat, i: nat | q in after && i < |after[q]|
      ensures Linked(s, after, stale, q, i) && Member(after, Null, q, i)
    {
      hide Linked;
      PushRow(t, kids, stale, p, c, q, i);
    }
    forall q: nat, i: nat, j: nat | q in after && i < j < |after[q]|
      ensures Different(after, q, i, j)
    {
      hide LinksOk;
      if q != p {
        Differ(t, kids, stale, At(c), q, i, j);
      } else if i > 0 {
        Differ(t, kids, stale, At(c), q, i - 1, j - 1);
      } else {
        Row(t, kids, stale, At(c), p, j - 1);
      }
    }
    hide Linked, Headed, Different, Member;
  }

  lemma PushRow(t: Tree, kids: Kids, stale: Link, p: nat, c: nat, q: nat, i: nat)
    requires LinksOk(t, kids, stale, At(c)) && p in kids && stale != At(p) && p in t.cptr && c in kids
    requires q in kids && i < |kids[p := [c] + kids[p]][q]|
    ensures Linked(Pushed(t, p, c), kids[p := [c] + kids[p]], stale, q, i)
    ensures Member(kids[p := [c] + kids[p]], Null, q, i)
  {
    hide LinksOk;
    Head(t, kids, stale, At(c), p);
    if q == p && i > 0 {
      Row(t, kids, stale, At(c), p, i - 1);
      if i > 1 {
        Differ(t, kids, stale, At(c), p, 0, i - 1);
      }
    } else {
      if kids[p] != [] {
        Row(t, kids, stale, At(c), p, 0);
      }
      if q != p {
        Row(t, kids, stale, At(c), q, i);
      }
    }
  }

  // ----- taking any child off a list -----

  function Unlinked(t: Tree, c: nat): Tree
    requires c in t.parent && c in t.optr && c in t.yptr
  {
    var older, younger := t.optr[c], t.yptr[c];
    var y := if older.At? then t.yptr[older.proc := younger] else t.yptr;
    if younger.At? then t.(optr := t.optr[younger.proc := older], yptr := y)
    else t.(cptr := t.cptr[t.parent[c] := older], yptr := y)
  }

  function Without(s: seq<nat>, k: nat): seq<nat>
    requires k < |s|
  {
    s[..k] + s[k + 1..]
  }

  lemma UnlinkRow(t: Tree, kids: Kids, p: nat, k: nat, q: nat, i: nat)
    requires LinksOk(t, kids, Null, Null) && p in kids && k < |kids[p]|
    requires kids[p][k] in t.parent && kids[p][k] in t.optr && kids[p][k] in t.yptr
    requires q in kids && i < |kids[p := Without(kids[p], k)][q]|
    ensures Linked(Unlinked(t, kids[p][k]), kids[p := Without(kids[p], k)], Null, q, i)
    ensures Member(kids[p := Without(kids[p], k)], At(kids[p][k]), q, i)
  {
    hide LinksOk;
    var i0 := if q == p && i >= k then i + 1 else i;
    Row(t, kids, Null, Null, p, k);
    Row(t, kids, Null, Null, q, i0);
    if k > 0 {
      Row(t, kids, Null, Null, p, k - 1);
    }
    if k + 1 < |kids[p]| {
      Row(t, kids, Null, Null, p, k + 1);
    }
    if q == p {
      Differ(t, kids, Null, Null, p, i0, k);
      if k > 0 && i0 != k - 1 {
        Differ(t, kids, Null, Null, p, i0, k - 1);
      }
      if k + 1 < |kids[p]| && i0 != k + 1 {
        Differ(t, kids, Null, Null, p, i0, k + 1);
      }
    }
  }

  lemma UnlinkHead(t: Tree, kids: Kids, p: nat, k: nat, q: nat)
    requires LinksOk(t, kids, Null, Null) && p in kids && k < |kids[p]| && q in kids
    requires kids[p][k] in t.parent && kids[p][k] in t.optr && kids[p][k] in t.yptr
    ensures Headed(Unlinked(t, kids[p][k]), kids[p := Without(kids[p], k)], q)
  {
    hide LinksOk;
    Row(t, kids, Null, Null, p, k);
    Head(t, kids, Null, Null, q);
  }

  lemma UnlinkKeeps(t: Tree, kids: Kids, p: nat, k: nat)
    requires LinksOk(t, kids, Null, Null) && p in kids && k < |kids[p]|
    ensures kids[p][k] in t.parent && kids[p][k] in t.optr && kids[p][k] in t.yptr
    ensures LinksOk(Unlinked(t, kids[p][k]), kids[p := Without(kids[p], k)], Null, At(kids[p][k]))
  {
    Row(t, kids, Null, Null, p, k);
    var s, after, c := Unlinked(t, kids[p][k]), kids[p := Without(kids[p], k)], kids[p][k];
    forall q: nat | q in after
      ensures Headed(s, after, q)
    {
      hide LinksOk, Headed;
      UnlinkHead(t, kids, p, k, q);
    }
    forall q: nat, i: nat | q in after && i < |after[q]|
      ensures Linked(s, after, Null, q, i) && Member(after, At(c), q, i)
    {
      hide LinksOk, Linked;
      UnlinkRow(t, kids, p, k, q, i);
    }
    forall q: nat, i: nat, j: nat | q in after && i < j < |after[q]|
      ensures Different(after, q, i, j)
    {
      hide LinksOk;
      var i0, j0 := if q == p && i >= k then i + 1 else i, if q == p && j >= k then j + 1 else j;
      Differ(t, kids, Null, Null, q, i0, j0);
    }
    hide Linked, Headed, Different;
  }

  // ----- making and forgetting a process -----

  /** A new process record, on no list. */
  function Created(t: Tree, c: nat): Tree {
    t.(cptr := t.cptr[c := Null], optr := t.optr[c := Null], yptr := t.yptr[c := Null])
  }

  lemma CreateKeeps(t: Tree, kids: Kids, c: nat)
    requires LinksOk(t, kids, Null, Null) && c !in kids
    ensures LinksOk(Created(t, c), kids[c := []], Null, At(c))
  {
    var s, after := Created(t, c), kids[c := []];
    forall q: nat | q in after
      ensures Headed(s, after, q)
    {
      hide LinksOk;
      if q != c {
        Head(t, kids, Null, Null, q);
      }
    }
    forall q: nat, i: nat | q in after && i < |after[q]|
      ensures Linked(s, after, Null, q, i) && Member(after, At(c), q, i)
    {
      hide LinksOk;
      Row(t, kids, Null, Null, q, i);
    }
    forall q: nat, i: nat, j: nat | q in after && i < j < |after[q]|
      ensures Different(after, q, i, j)
    {
      hide LinksOk;
      Differ(t, kids, Null, Null, q, i, j);
    }
    hide Linked, Headed, Different;
  }

  function Forgotten(t: Tree, c: nat): Tree {
    Tree(t.parent - {c}, t.cptr - {c}, t.optr - {c}, t.yptr - {c})
  }

  lemma ForgetKeeps(t: Tree, kids: Kids, c: nat)
    requires LinksOk(t, kids, Null, At(c)) && kids[c] == []
    ensures LinksOk(Forgotten(t, c), kids - {c}, Null, Null)
  {
    var s, after := Forgotten(t, c), kids - {c};
    forall q: nat | q in after
      ensures Headed(s, after, q)
    {
      hide LinksOk;
      Head(t, kids, Null, At(c), q);
    }
    forall q: nat, i: nat | q in after && i < |after[q]|
      ensures Linked(s, after, Null, q, i) && Member(after, Null, q, i)
    {
      hide LinksOk;
      Row(t, kids, Null, At(c), q, i);
    }
    forall q: nat, i: nat, j: nat | q in after && i < j < |after[q]|
      ensures Different(after, q, i, j)
    {
      hide LinksOk;
      Differ(t, kids, Null, At(c), q, i, j);
    }
    hide Linked, Headed, Different;
  }

  // ----- parents are older -----

  /** Moving the first child of `p` to the front of the children of an older `q`. */
  lemma MoveRooted(t: Tree, kids: Kids, stale: Link, born: map<nat, nat>, p: nat, q: nat)
    requires LinksOk(t, kids, stale, Null) && Rooted(t, kids, born) && p in kids && q in kids && p != q && kids[p] != []
    requires p in t.cptr && t.cptr[p] == At(kids[p][0]) && kids[p][0] in t.optr && q in t.cptr
    requires kids[p][0] in born && born[q] < born[kids[p][0]]
    ensures Rooted(Pushed(Popped(t, p), q, kids[p][0]), kids[p := kids[p][1..]][q := [kids[p][0]] + kids[q]], born)
  {
    var c := kids[p][0];
    var s, after := Pushed(Popped(t, p), q, c), kids[p := kids[p][1..]][q := [c] + kids[q]];
    Row(t, kids, stale, Null, p, 0);
    hide LinksOk, Linked;
    forall x: nat | x in s.parent
      ensures s.parent[x] in after && x in after[s.parent[x]] && born[s.parent[x]] < born[x]
    {
      assert c in [c] + kids[q];
      if x != c {
        var y := t.parent[x];
        var i :| 0 <= i < |kids[y]| && kids[y][i] == x;
        if y == p {
          assert kids[p][1..][i - 1] == x;
        } else if y == q {
          assert ([c] + kids[q])[i + 1] == x;
        }
      }
    }
  }

  lemma ForkRooted(t: Tree, kids: Kids, born: map<nat, nat>, p: nat, c: nat, n: nat)
    requires Rooted(t, kids, born) && p in kids && c !in kids && p in t.cptr && c != 0 && born[p] < n
    ensures Rooted(Pushed(Created(t, c), p, c), kids[c := []][p := [c] + kids[p]], born[c := n])
  {
    var s, after := Pushed(Created(t, c), p, c), kids[c := []][p := [c] + kids[p]];
    forall x: nat | x in s.parent
      ensures s.parent[x] in after && x in after[s.parent[x]] && born[c := n][s.parent[x]] < born[c := n][x]
    {
      assert c in [c] + kids[p];
      if x != c {
        var y := t.parent[x];
        var i :| 0 <= i < |kids[y]| && kids[y][i] == x;
        if y == p {
          assert ([c] + kids[p])[i + 1] == x;
        }
      }
    }
  }

  lemma ReapRooted(t: Tree, kids: Kids, born: map<nat, nat>, p: nat, k: nat)
    requires LinksOk(t, kids, Null, Null) && Rooted(t, kids, born) && p in kids && k < |kids[p]|
    requires kids[p][k] in t.parent && kids[p][k] in t.optr && kids[p][k] in t.yptr && kids[p][k] in kids
             && kids[kids[p][k]] == []
    ensures Rooted(Forgotten(Unlinked(t, kids[p][k]), kids[p][k]), kids[p := Without(kids[p], k)] - {kids[p][k]},
              born - {kids[p][k]})
  {
    var c := kids[p][k];
    var s, after := Forgotten(Unlinked(t, c), c), kids[p := Without(kids[p], k)] - {c};
    Row(t, kids, Null, Null, p, k);
    hide LinksOk, Linked;
    forall x: nat | x in s.parent
      ensures s.parent[x] in after && x in after[s.parent[x]] && born[s.parent[x]] < born[x]
    {
      var y := t.parent[x];
      var i :| 0 <= i < |kids[y]| && kids[y][i] == x;
      if y == p {
        assert Without(kids[p], k)[if i < k then i else i - 1] == x;
      }
    }
  }
}
