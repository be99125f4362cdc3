/**
 The block lists of `mksfs`: twelve direct entries, one index block, and index blocks under a
 doubly indirect one, filled through a cache of index blocks that have not been written yet.
 `roles` says what each cached index block is for.
 */
module MksfsFiles {
  import opened SfsBlocks

  const L1_BLKS: nat := 1036
  const LN_BLKS: nat := 32768

  datatype Link = Null | At(ino: nat)

  /** A cached inode; `tag` is the word that holds its type and link count. */
  datatype File = File(size: nat, tag: nat, nblks: nat, direct: seq<nat>, indirect: nat, db: nat, l1: Link, l2: Link)

  datatype Role = Single(id: nat) | Top(id: nat) | Leaf(id: nat, g: nat)

  type Cache = map<nat, seq<nat>>
  type Roles = map<nat, Role>

  function Group(k: nat): nat
    requires k >= L1_BLKS
  {
    (k - L1_BLKS) / NENTRY
  }

  function Slot(k: nat): (r: nat)
    requires k >= L1_BLKS
    ensures r < NENTRY
  {
    (k - L1_BLKS) % NENTRY
  }

  /** How many index blocks hang under the doubly indirect one. */
  function Groups(n: nat): nat {
    if n <= L1_BLKS then 0 else (n - L1_BLKS + NENTRY - 1) / NENTRY
  }

  predicate Has(cache: Cache, roles: Roles, e: nat, r: Role) {
    e != 0 && e in cache && |cache[e]| == NENTRY && e in roles && roles[e] == r
  }

  function Put(cache: Cache, e: nat, i: nat, b: nat): Cache
    requires e in cache && i < |cache[e]|
  {
    var row: seq<nat> := cache[e][i := b];
    cache[e := row]
  }

  // ----- the invariant -----

  /** Where the image keeps the number of block `k` of the file, and what it is. */
  predicate Entered(cache: Cache, f: File, list: seq<nat>, k: nat) {
    && k < |list|
    && if k < NDIRECT then k < |f.direct| && f.direct[k] == list[k]
       else if k < L1_BLKS then f.indirect in cache && k - NDIRECT < |cache[f.indirect]|
           && cache[f.indirect][k - NDIRECT] == list[k]
       else f.db in cache && Group(k) < |cache[f.db]| && cache[f.db][Group(k)] in cache
            && Slot(k) < |cache[cache[f.db][Group(k)]]| && cache[cache[f.db][Group(k)]][Slot(k)] == list[k]
  }

  predicate LeafOk(cache: Cache, roles: Roles, id: nat, db: nat, n: nat, g: nat) {
    && db in cache && g < |cache[db]|
    && if g < Groups(n) then Has(cache, roles, cache[db][g], Leaf(id, g)) else cache[db][g] == 0
  }

  ghost predicate LeavesOk(cache: Cache, roles: Roles, id: nat, db: nat, n: nat) {
    forall g: nat :: g < NENTRY ==> LeafOk(cache, roles, id, db, n, g)
  }

  /** The cached blocks at hand are those being filled. */
  predicate AtHand(cache: Cache, f: File) {
    && (NDIRECT < f.nblks <= L1_BLKS ==> f.l1 == At(f.indirect))
    && (f.nblks > L1_BLKS ==>
         f.l2 == At(f.db) && f.db in cache && Groups(f.nblks) - 1 < |cache[f.db]|
         && f.l1 == At(cache[f.db][Groups(f.nblks) - 1]))
  }

  ghost predicate FileOk(cache: Cache, roles: Roles, id: nat, f: File, list: seq<nat>) {
    && |f.direct| == NDIRECT && f.nblks == |list| <= LN_BLKS
    && (if f.nblks <= NDIRECT then f.indirect == 0 else Has(cache, roles, f.indirect, Single(id)))
    && (if f.nblks <= L1_BLKS then f.db == 0
        else Has(cache, roles, f.db, Top(id)) && LeavesOk(cache, roles, id, f.db, f.nblks))
    && AtHand(cache, f)
    && (forall k: nat :: k < |list| ==> Entered(cache, f, list, k))
  }

  /** Index blocks of other files are not this file's. */
  lemma ElsewhereKeeps(cache: Cache, roles: Roles, cache': Cache, roles': Roles, id: nat, f: File, list: seq<nat>)
    requires FileOk(cache, roles, id, f, list)
    requires forall e: nat :: e in roles && roles[e].id == id && e in cache ==>
               e in cache' && cache'[e] == cache[e] && e in roles' && roles'[e] == roles[e]
    ensures FileOk(cache', roles', id, f, list)
  {
    if f.nblks > L1_BLKS {
      forall g: nat | g < NENTRY
        ensures LeafOk(cache', roles', id, f.db, f.nblks, g)
      {
        assert LeafOk(cache, roles, id, f.db, f.nblks, g);
      }
    }
    forall k: nat | k < |list|
      ensures Entered(cache', f, list, k)
    {
      assert Entered(cache, f, list, k);
      if k >= L1_BLKS {
        GroupBelow(k, f.nblks);
        assert LeafOk(cache, roles, id, f.db, f.nblks, Group(k));
      }
    }
    if f.nblks > L1_BLKS {
      assert LeafOk(cache, roles, id, f.db, f.nblks, Groups(f.nblks) - 1);
    }
  }

  lemma GroupBelow(k: nat, n: nat)
    requires L1_BLKS <= k < n <= LN_BLKS
    ensures Group(k) < Groups(n) <= NENTRY
  {
  }

  // ----- appending -----

  function Directed(f: File, b: nat): File
    requires f.nblks < |f.direct|
  {
    f.(direct := f.direct[f.nblks := b], nblks := f.nblks + 1)
  }

  lemma DirectKeeps(cache: Cache, roles: Roles, id: nat, f: File, list: seq<nat>, b: nat)
    requires FileOk(cache, roles, id, f, list) && f.nblks < NDIRECT
    ensures FileOk(cache, roles, id, Directed(f, b), list + [b])
  {
    var f' := Directed(f, b);
    forall k: nat | k < |list + [b]|
      ensures Entered(cache, f', list + [b], k)
    {
      assert k < |list| ==> Entered(cache, f, list, k);
    }
  }

  function NoEntries(): (s: seq<nat>)
    ensures |s| == NENTRY && forall k: nat :: k < NENTRY ==> s[k] == 0
  {
    seq(NENTRY, _ => 0)
  }

  /** The file with its index block in the cache, before the entry is made. */
  ghost predicate Indexed(cache: Cache, roles: Roles, id: nat, f: File, list: seq<nat>) {
    && |f.direct| == NDIRECT && f.nblks == |list| && NDIRECT <= f.nblks < L1_BLKS && f.db == 0
    && Has(cache, roles, f.indirect, Single(id)) && f.l1 == At(f.indirect)
    && (forall k: nat :: k < |list| ==> Entered(cache, f, list, k))
  }

  lemma IndexKeeps(cache: Cache, roles: Roles, id: nat, f: File, list: seq<nat>, b: nat)
    requires Indexed(cache, roles, id, f, list)
    ensures var e := f.indirect;
            FileOk(Put(cache, e, f.nblks - NDIRECT, b), roles, id, f.(nblks := f.nblks + 1), list + [b])
  {
    var e := f.indirect;
    var cache', f' := Put(cache, e, f.nblks - NDIRECT, b), f.(nblks := f.nblks + 1);
    forall k: nat | k < |list + [b]|
      ensures Entered(cache', f', list + [b], k)
    {
      assert k < |list| ==> Entered(cache, f, list, k);
    }
  }

  /** Ready to enter block `n` under the doubly indirect block: its group's index block is there. */
  ghost predicate Grouped(cache: Cache, roles: Roles, id: nat, f: File, list: seq<nat>) {
    && |f.direct| == NDIRECT && f.nblks == |list| && L1_BLKS <= f.nblks < LN_BLKS
    && Has(cache, roles, f.indirect, Single(id)) && Has(cache, roles, f.db, Top(id))
    && f.l2 == At(f.db) && f.l1 == At(cache[f.db][Group(f.nblks)])
    && LeavesOk(cache, roles, id, f.db, f.nblks + 1)
    && (forall k: nat :: k < |list| ==> Entered(cache, f, list, k))
  }

  lemma GroupsNext(n: nat)
    requires L1_BLKS <= n < LN_BLKS
    ensures Group(n) == Groups(n + 1) - 1 && Group(n) < NENTRY
    ensures Groups(n) == if Slot(n) == 0 then Group(n) else Group(n) + 1
  {
  }

  lemma GroupKeeps(cache: Cache, roles: Roles, id: nat, f: File, list: seq<nat>, b: nat)
    requires Grouped(cache, roles, id, f, list) && Group(f.nblks) < NENTRY
    ensures var e := cache[f.db][Group(f.nblks)];
            && Has(cache, roles, e, Leaf(id, Group(f.nblks)))
            && FileOk(Put(cache, e, Slot(f.nblks), b), roles, id, f.(nblks := f.nblks + 1), list + [b])
  {
    GroupsNext(f.nblks);
    var n := f.nblks;
    var f' := f.(nblks := n + 1);
    assert LeafOk(cache, roles, id, f.db, n + 1, Group(n));
    var e := cache[f.db][Group(n)];
    var cache' := Put(cache, e, Slot(n), b);
    var m := n + 1;
    forall g: nat | g < NENTRY
      ensures LeafOk(cache', roles, id, f.db, m, g)
    {
      assert LeafOk(cache, roles, id, f.db, m, g);
    }
    forall k: nat | k < |list + [b]|
      ensures Entered(cache', f', list + [b], k)
    {
      GroupEntered(cache, roles, id, f, list, b, k);
    }
  }

  lemma GroupEntered(cache: Cache, roles: Roles, id: nat, f: File, list: seq<nat>, b: nat, k: nat)
    requires Grouped(cache, roles, id, f, list) && Group(f.nblks) < NENTRY && k <= |list|
    requires Has(cache, roles, cache[f.db][Group(f.nblks)], Leaf(id, Group(f.nblks)))
    ensures var e := cache[f.db][Group(f.nblks)];
            Entered(Put(cache, e, Slot(f.nblks), b), f.(nblks := f.nblks + 1), list + [b], k)
  {
    var e := cache[f.db][Group(f.nblks)];
    if k < |list| {
      assert Entered(cache, f, list, k);
      if k >= L1_BLKS {
        GroupBelow(k, f.nblks + 1);
        assert LeafOk(cache, roles, id, f.db, f.nblks + 1, Group(k));
        SamePlace(k, f.nblks);
      }
    }
  }

  lemma SamePlace(k: nat, n: nat)
    requires L1_BLKS <= k < n
    ensures Group(k) != Group(n) || Slot(k) != Slot(n)
  {
  }

  // ----- index blocks made on the way -----

  lemma ToIndexed(cache: Cache, roles: Roles, id: nat, f: File, list: seq<nat>, e: nat)
    requires FileOk(cache, roles, id, f, list) && f.nblks == NDIRECT && e !in cache && e != 0
    ensures Indexed(cache[e := NoEntries()], roles[e := Single(id)], id, f.(indirect := e, l1 := At(e)), list)
  {
    var c, f' := cache[e := NoEntries()], f.(indirect := e, l1 := At(e));
    forall k: nat | k < |list|
      ensures Entered(c, f', list, k)
    {
      assert Entered(cache, f, list, k);
    }
  }

  lemma IsIndexed(cache: Cache, roles: Roles, id: nat, f: File, list: seq<nat>)
    requires FileOk(cache, roles, id, f, list) && NDIRECT < f.nblks < L1_BLKS
    ensures Indexed(cache, roles, id, f, list)
  {
  }

  /** The doubly indirect block is there. */
  ghost predicate Topped(cache: Cache, roles: Roles, id: nat, f: File, list: seq<nat>) {
    && |f.direct| == NDIRECT && f.nblks == |list| && L1_BLKS <= f.nblks < LN_BLKS
    && Has(cache, roles, f.indirect, Single(id)) && Has(cache, roles, f.db, Top(id)) && f.l2 == At(f.db)
    && LeavesOk(cache, roles, id, f.db, f.nblks)
    && Group(f.nblks) < NENTRY && (Slot(f.nblks) != 0 ==> f.l1 == At(cache[f.db][Group(f.nblks)]))
    && (forall k: nat :: k < |list| ==> Entered(cache, f, list, k))
  }

  lemma ToTopped(cache: Cache, roles: Roles, id: nat, f: File, list: seq<nat>, e: nat)
    requires FileOk(cache, roles, id, f, list) && f.nblks == L1_BLKS && e !in cache && e != 0
    ensures Topped(cache[e := NoEntries()], roles[e := Top(id)], id, f.(db := e, l2 := At(e)), list)
  {
    var c, r, f' := cache[e := NoEntries()], roles[e := Top(id)], f.(db := e, l2 := At(e));
    forall k: nat | k < |list|
      ensures Entered(c, f', list, k)
    {
      assert Entered(cache, f, list, k);
    }
    forall g: nat | g < NENTRY
      ensures LeafOk(c, r, id, e, f.nblks, g)
    {
    }
  }

  lemma IsTopped(cache: Cache, roles: Roles, id: nat, f: File, list: seq<nat>)
    requires FileOk(cache, roles, id, f, list) && L1_BLKS < f.nblks < LN_BLKS
    ensures Topped(cache, roles, id, f, list)
  {
    GroupsNext(f.nblks);
  }

  /** The group's entry in the doubly indirect block is empty exactly when a new group starts. */
  lemma GroupEntry(cache: Cache, roles: Roles, id: nat, f: File, list: seq<nat>)
    requires Topped(cache, roles, id, f, list)
    ensures f.db in cache && Group(f.nblks) < |cache[f.db]|
    ensures cache[f.db][Group(f.nblks)] == 0 <==> Slot(f.nblks) == 0
    ensures Slot(f.nblks) != 0 ==> f.l1 == At(cache[f.db][Group(f.nblks)])
  {
    GroupsNext(f.nblks);
    assert LeafOk(cache, roles, id, f.db, f.nblks, Group(f.nblks));
  }

  lemma IsGrouped(cache: Cache, roles: Roles, id: nat, f: File, list: seq<nat>)
    requires Topped(cache, roles, id, f, list) && Slot(f.nblks) != 0
    ensures Grouped(cache, roles, id, f, list)
  {
    GroupsNext(f.nblks);
    var n, m := f.nblks, f.nblks + 1;
    forall g: nat | g < NENTRY
      ensures LeafOk(cache, roles, id, f.db, m, g)
    {
      assert LeafOk(cache, roles, id, f.db, n, g);
    }
  }

  lemma ToGrouped(cache: Cache, roles: Roles, id: nat, f: File, list: seq<nat>, e: nat)
    requires Topped(cache, roles, id, f, list) && Slot(f.nblks) == 0 && e !in cache && e != 0
    requires f.db in cache && Group(f.nblks) < |cache[f.db]|
    ensures Grouped(Put(cache[e := NoEntries()], f.db, Group(f.nblks), e), roles[e := Leaf(id, Group(f.nblks))], id,
              f.(l1 := At(e)), list)
  {
    GroupsNext(f.nblks);
    var n, m, j := f.nblks, f.nblks + 1, Group(f.nblks);
    var c, r, f' := Put(cache[e := NoEntries()], f.db, j, e), roles[e := Leaf(id, j)], f.(l1 := At(e));
    forall g: nat | g < NENTRY
      ensures LeafOk(c, r, id, f.db, m, g)
    {
      assert LeafOk(cache, roles, id, f.db, n, g);
    }
    forall k: nat | k < |list|
      ensures Entered(c, f', list, k)
    {
      assert Entered(cache, f, list, k);
      if k >= L1_BLKS {
        GroupBelow(k, n);
        assert LeafOk(cache, roles, id, f.db, n, Group(k));
      }
    }
  }

  /** The index blocks that the next append has to make. */
  function NewBlocks(n: nat): nat {
    if n == NDIRECT then 1
    else if n < L1_BLKS then 0
    else if n == L1_BLKS then 2
    else if Slot(n) == 0 then 1
    else 0
  }
}
