/** The steps of rebalancing seen from outside: what each needs, and what it keeps. */
module Steps {
  import opened Options
  import opened Bytes
  import opened Pgids
  import opened Levels
  import opened Tree
  import opened Arena

  /** Mentioning Open() is what unfolds InStep; elsewhere it stays a single fact. */
  ghost predicate Open(x: int) { true }

  /** The materialised nodes and the pages make up the tree lv. */
  ghost predicate InStep(a: Nodes, pages: Pages, lv: Stack)
  {
    forall x {:trigger Open(x)} :: Open(x) ==> Tied(a, pages, lv)
  }

  lemma {:induction false} Unfold(a: Nodes, pages: Pages, lv: Stack)
    requires InStep(a, pages, lv)
    ensures Tied(a, pages, lv)
  {
    assert Open(0);
  }

  ghost function RootId(lv: Stack): Pgid
  {
    if |lv| > 0 && lv[|lv| - 1] != [] then lv[|lv| - 1][0].id else 0
  }

  ghost function Entries(lv: Stack): seq<Inode>
  {
    if |lv| > 0 then Contents(lv) else []
  }

  /** A child read through its parent: cached under that parent, or a page ready to be read. */
  lemma {:induction false} ChildStep(a: Nodes, pages: Pages, lv: Stack, id: Pgid, p: Pgid)
    requires InStep(a, pages, lv) && p in a && !a[p].isLeaf && PointsTo(a[p].inodes, id)
    ensures id in a ==> a[id].parent == Some(p)
    ensures id !in a ==> id in pages && id != p && InStep(Materialise(a, pages, id, p), pages, lv)
  {
    Unfold(a, pages, lv);
    if id in a {
      ChildParent(a, pages, lv, id, p);
    } else {
      MaterialiseTied(a, pages, lv, id, p);
    }
  }

  /** The cached children of r are the cached nodes its entries point to, each once. */
  ghost predicate OwnKids(a: Nodes, r: Pgid)
    requires r in a
  {
    && (forall i :: 0 <= i < |a[r].inodes| && a[r].inodes[i].pgid in a ==> a[a[r].inodes[i].pgid].parent == Some(r))
    && (forall i, j :: 0 <= i < j < |a[r].inodes| && a[r].inodes[i].pgid in a ==>
      a[r].inodes[i].pgid != a[r].inodes[j].pgid)
    && (forall id {:trigger PointsTo(a[r].inodes, id)} :: id in a && a[id].parent == Some(r) ==>
      PointsTo(a[r].inodes, id))
  }

  /** The cached nodes below r are those its entries point to. */
  ghost predicate KidsExactly(a: Nodes, r: Pgid)
    requires r in a
  {
    forall id {:trigger PointsTo(a[r].inodes, id)} :: id in a ==>
      (PointsTo(a[r].inodes, id) <==> a[id].parent == Some(r))
  }

  lemma {:induction false} OwnKidsHold(a: Nodes, pages: Pages, lv: Stack, r: Pgid)
    requires InStep(a, pages, lv) && r in a && a[r].parent.Some?
    ensures OwnKids(a, r) && Listed(a)
  {
    Unfold(a, pages, lv);
    var k, j := Place(a, pages, lv, r);
    assert LinkOk(a, Root(lv).id, r);
    forall i | 0 <= i < |a[r].inodes| && a[r].inodes[i].pgid in a ensures a[a[r].inodes[i].pgid].parent == Some(r) {
      ChildrenOf(a, pages, lv, a[r].inodes[i].pgid, r);
    }
    forall id | id in a && a[id].parent == Some(r) ensures PointsTo(a[r].inodes, id) {
      ChildrenOf(a, pages, lv, id, r);
    }
    DistinctEntries(lv, k, j);
  }

  // ---- how full nodes are ----

  /** A node that rebalancing has no work with: a branch with two entries or more; a leaf with
      entries, or without but marked for a visit, or the whole tree. */
  ghost predicate Healthy(lv: Stack, a: Nodes, k: nat, j: nat)
    requires k < |lv| && j < |lv[k]|
  {
    var r := lv[k][j];
    if k > 0 then |r.inodes| >= 2
    else |lv| > 1 && r.inodes == [] ==> r.id in a && a[r.id].unbalanced
  }

  ghost predicate HealthyBut(lv: Stack, a: Nodes, x: Pgid)
  {
    forall k, j {:trigger Healthy(lv, a, k, j)} ::
      0 <= k < |lv| && 0 <= j < |lv[k]| && lv[k][j].id != x ==> Healthy(lv, a, k, j)
  }

  ghost predicate AllHealthy(lv: Stack, a: Nodes)
  {
    forall k, j {:trigger Healthy(lv, a, k, j)} ::
      0 <= k < |lv| && 0 <= j < |lv[k]| ==> Healthy(lv, a, k, j)
  }

  /** No empty leaf but a root that is all of the tree; no branch with fewer than two entries. */
  ghost predicate Balanced(lv: Stack)
  {
    && (forall k, j :: 0 < k < |lv| && 0 <= j < |lv[k]| ==> |lv[k][j].inodes| >= 2)
    && (|lv| > 1 ==> forall j :: 0 <= j < |lv[0]| ==> lv[0][j].inodes != [])
  }

  lemma {:induction false} HealthyUnmarked(lv: Stack, a: Nodes)
    requires AllHealthy(lv, a) && Marked(a) == {}
    ensures Balanced(lv)
  {
    forall k, j | 0 <= k < |lv| && 0 <= j < |lv[k]|
      ensures if k > 0 then |lv[k][j].inodes| >= 2 else |lv| > 1 ==> lv[k][j].inodes != []
    {
      assert Healthy(lv, a, k, j);
      assert lv[k][j].id !in Marked(a);
    }
  }

  /** The nodes marked for a visit. */
  ghost function Marked(a: Nodes): set<Pgid>
  {
    set id | id in a && a[id].unbalanced
  }

  ghost function Unmark(a: Nodes, n: Pgid): Nodes
    requires n in a
  {
    a[n := a[n].(unbalanced := false)]
  }

  ghost predicate At(lv: Stack, k: nat, id: Pgid)
  {
    k < |lv| && exists j :: 0 <= j < |lv[k]| && lv[k][j].id == id
  }

  lemma {:induction false} NodeAt(a: Nodes, pages: Pages, lv: Stack, n: Pgid) returns (k: nat)
    requires InStep(a, pages, lv) && n in a
    ensures At(lv, k, n)
  {
    Unfold(a, pages, lv);
    var j;
    k, j := Place(a, pages, lv, n);
  }

  /** A node that was found among its parent's entries. */
  ghost predicate IsEntry(a: Nodes, n: Pgid, p: Pgid)
    requires n in a
  {
    && p in a && !a[p].isLeaf && Asc(a[p].inodes) && Found(a[p].inodes, a[n].key)
    && a[p].inodes[Search(a[p].inodes, a[n].key)].pgid == n
  }

  /** What holds of a cached node of level k. */
  lemma {:induction false} NodeFacts(a: Nodes, pages: Pages, lv: Stack, n: Pgid, k: nat)
    requires InStep(a, pages, lv) && n in a && At(lv, k, n)
    ensures Asc(a[n].inodes) && (a[n].isLeaf <==> k == 0) && (k > 0 ==> a[n].inodes != [])
    ensures a[n].parent.None? <==> n == RootId(lv)
    ensures a[n].parent.None? <==> k == |lv| - 1
  {
    Unfold(a, pages, lv);
    var j :| 0 <= j < |lv[k]| && lv[k][j].id == n;
    ShownIs(a, pages, lv, k, j, n);
    assert LevelOk(lv, k);
    assert LinkOk(a, Root(lv).id, n);
    Differ(lv, k, j, |lv| - 1, 0);
  }

  lemma {:induction false} ParentFacts(a: Nodes, pages: Pages, lv: Stack, n: Pgid, k: nat)
    requires InStep(a, pages, lv) && n in a && At(lv, k, n) && a[n].parent.Some?
    ensures IsEntry(a, n, a[n].parent.value) && At(lv, k + 1, a[n].parent.value)
  {
    Unfold(a, pages, lv);
    assert LinkOk(a, Root(lv).id, n);
    var j :| 0 <= j < |lv[k]| && lv[k][j].id == n;
    var k', j', q, i := PlaceChild(a, pages, lv, n);
    Unique(lv, k, j, k', j');
    assert Asc(lv[k + 1][q].inodes) by { assert LevelOk(lv, k + 1); }
    SearchAt(a[a[n].parent.value].inodes, i);
  }

  /** The entry that points to a node is the one its key finds. */
  lemma {:induction false} EntryIndex(a: Nodes, pages: Pages, lv: Stack, t: Pgid, p: Pgid, i: nat)
    requires InStep(a, pages, lv) && t in a && p in a && !a[p].isLeaf && i < |a[p].inodes| && a[p].inodes[i].pgid == t
    ensures a[t].parent == Some(p) && IsEntry(a, t, p) && Search(a[p].inodes, a[t].key) == i
  {
    Unfold(a, pages, lv);
    ChildParent(a, pages, lv, t, p);
    var k := NodeAt(a, pages, lv, t);
    ParentFacts(a, pages, lv, t, k);
    var m, q := Place(a, pages, lv, p);
    DistinctEntries(lv, m, q);
  }

  /** The parent of a node that is looked at has other children. */
  lemma {:induction false} ParentWide(a: Nodes, pages: Pages, lv: Stack, n: Pgid, p: Pgid)
    requires InStep(a, pages, lv) && n in a && a[n].parent == Some(p) && HealthyBut(lv, a, n)
    ensures p in a && p != n && |a[p].inodes| > 1
  {
    Unfold(a, pages, lv);
    assert LinkOk(a, Root(lv).id, n);
    var k, j, q, i := PlaceChild(a, pages, lv, n);
    Differ(lv, k, j, k + 1, q);
    assert Healthy(lv, a, k + 1, q);
  }

  lemma {:induction false} HealthOf(a: Nodes, pages: Pages, lv: Stack, n: Pgid, k: nat)
    requires InStep(a, pages, lv) && n in a && At(lv, k, n) && HealthyBut(lv, a, n)
    requires if k > 0 then |a[n].inodes| >= 2 else |lv| > 1 && a[n].inodes == [] ==> a[n].unbalanced
    ensures AllHealthy(lv, a)
  {
    Unfold(a, pages, lv);
    var j :| 0 <= j < |lv[k]| && lv[k][j].id == n;
    forall m, x | 0 <= m < |lv| && 0 <= x < |lv[m]| ensures Healthy(lv, a, m, x) {
      if lv[m][x].id == n {
        Unique(lv, m, x, k, j);
        ShownIs(a, pages, lv, k, j, n);
      }
    }
  }

  lemma {:induction false} UnmarkStep(a: Nodes, pages: Pages, lv: Stack, n: Pgid)
    requires InStep(a, pages, lv) && n in a
    ensures InStep(Unmark(a, n), pages, lv) && Marked(Unmark(a, n)) == Marked(a) - {n}
    ensures HealthyBut(lv, a, n) ==> HealthyBut(lv, Unmark(a, n), n)
  {
    Unfold(a, pages, lv);
    var a' := Unmark(a, n);
    SameTied(a, a', pages, lv);
    if HealthyBut(lv, a, n) {
      forall k, j | 0 <= k < |lv| && 0 <= j < |lv[k]| && lv[k][j].id != n ensures Healthy(lv, a', k, j) {
        assert Healthy(lv, a, k, j);
      }
    }
  }

  /** The marks play no part in how nodes and pages make up the tree. */
  lemma {:induction false} SameTied(a: Nodes, a': Nodes, pages: Pages, lv: Stack)
    requires Tied(a, pages, lv) && a'.Keys == a.Keys
    requires forall id :: id in a ==> a'[id] == a[id].(unbalanced := a'[id].unbalanced)
    ensures Tied(a', pages, lv)
  {
    forall k, j | 0 <= k < |lv| && 0 <= j < |lv[k]| ensures ShownAt(a', pages, lv, k, j) {
      assert ShownAt(a, pages, lv, k, j);
    }
    forall k, j | 0 < k < |lv| && 0 <= j < |lv[k]| ensures StrictAt(a', pages, lv, k, j) {
      assert StrictAt(a, pages, lv, k, j);
      assert forall i :: 0 <= i < |lv[k][j].inodes| ==> EntryStrict(a, pages, lv[k][j].inodes[i]);
    }
    forall id | id in a' ensures LinkOk(a', Root(lv).id, id) && ListOk(a', id) {
      assert LinkOk(a, Root(lv).id, id) && ListOk(a, id);
    }
  }

  lemma {:induction false} ReadHealth(a: Nodes, pages: Pages, lv: Stack, id: Pgid, p: Pgid, x: Pgid)
    requires id in pages && p in a && id !in a && id != p && HealthyBut(lv, a, x)
    ensures HealthyBut(lv, Materialise(a, pages, id, p), x) && Marked(Materialise(a, pages, id, p)) == Marked(a)
  {
    var a' := Materialise(a, pages, id, p);
    forall k, j | 0 <= k < |lv| && 0 <= j < |lv[k]| && lv[k][j].id != x ensures Healthy(lv, a', k, j) {
      assert Healthy(lv, a, k, j);
    }
  }

  /** The outcome of a step that takes the node gone out of the tree. */
  ghost predicate Kept(lv: Stack, lv': Stack, gone: Pgid)
  {
    && Entries(lv') == Entries(lv) && RootId(lv') == RootId(lv)
    && gone in Ids(lv) && Ids(lv') == Ids(lv) - {gone}
  }

  // ---- what becomes of a leaf and its neighbour ----

  ghost predicate BesideAt(lv: Stack, i: int, id: Pgid, next: Option<Pgid>, xs: seq<Inode>)
  {
    && |lv| > 1 && 0 <= i < |lv[0]| && lv[0][i] == Rec(id, xs)
    && next == if i + 1 < |lv[0]| then Some(lv[0][i + 1].id) else None
  }

  /** Leaf id, which is not all of the tree, has the entries xs, and next is the leaf to its right. */
  ghost predicate Beside(lv: Stack, id: Pgid, next: Option<Pgid>, xs: seq<Inode>)
  {
    exists i :: BesideAt(lv, i, id, next, xs)
  }

  /** One of the two pages was freed. */
  ghost predicate OneFreed(freed: set<Pgid>, id: Pgid, next: Option<Pgid>)
  {
    id in freed || (next.Some? && next.value in freed)
  }

  ghost predicate WentOrStands(a: Nodes, lv': Stack, a': Nodes, freed: set<Pgid>, id: Pgid, next: Option<Pgid>,
                               xs: seq<Inode>)
  {
    OneFreed(freed, id, next) || (Beside(lv', id, next, xs) && (id in Marked(a) ==> id in Marked(a')))
  }

  /** Each leaf, but for those in but, went, or lost its right neighbour, or stands there as before, marked
      if it was. */
  ghost predicate Traced(lv: Stack, a: Nodes, lv': Stack, a': Nodes, freed: set<Pgid>, but: set<Pgid>)
  {
    forall x {:trigger Open(x)} :: Open(x) ==>
      forall id, next, xs {:trigger Beside(lv, id, next, xs)} :: Beside(lv, id, next, xs) && id !in but ==>
        WentOrStands(a, lv', a', freed, id, next, xs)
  }

  /** Node id is not a leaf of a larger tree. */
  ghost predicate NoLeaf(lv: Stack, id: Pgid)
  {
    forall next, xs :: !Beside(lv, id, next, xs)
  }

  lemma {:induction false} AboveLeaves(a: Nodes, pages: Pages, lv: Stack, id: Pgid, k: nat)
    requires InStep(a, pages, lv) && At(lv, k, id) && (k > 0 || |lv| == 1)
    ensures NoLeaf(lv, id)
  {
    Unfold(a, pages, lv);
    var j :| 0 <= j < |lv[k]| && lv[k][j].id == id;
    forall next, xs ensures !Beside(lv, id, next, xs) {
      if i :| BesideAt(lv, i, id, next, xs) {
        Unique(lv, k, j, 0, i);
      }
    }
  }

  lemma {:induction false} TracedTwice(lv: Stack, a: Nodes, lv1: Stack, a1: Nodes, freed1: set<Pgid>, lv2: Stack,
                                       a2: Nodes, freed2: set<Pgid>, but: set<Pgid>, but2: set<Pgid>)
    requires Traced(lv, a, lv1, a1, freed1, but) && Traced(lv1, a1, lv2, a2, freed2, but2)
    requires freed1 <= freed2 && forall n :: n in but2 ==> NoLeaf(lv1, n)
    ensures Traced(lv, a, lv2, a2, freed2, but)
  {
    forall id, next, xs | Beside(lv, id, next, xs) && id !in but
      ensures WentOrStands(a, lv2, a2, freed2, id, next, xs)
    {
      assert Open(0);
      assert WentOrStands(a, lv1, a1, freed1, id, next, xs);
      if Beside(lv1, id, next, xs) && !OneFreed(freed1, id, next) {
        assert id !in but2;
        assert WentOrStands(a1, lv2, a2, freed2, id, next, xs);
      }
    }
  }

  lemma {:induction false} TracedSame(lv: Stack, a: Nodes, a': Nodes, freed: set<Pgid>, but: set<Pgid>)
    requires Marked(a) - but <= Marked(a')
    ensures Traced(lv, a, lv, a', freed, but)
  {
  }

  /** A cached leaf of a larger tree holds what the tree says, and has a parent. */
  lemma {:induction false} BesideIs(a: Nodes, pages: Pages, lv: Stack, id: Pgid, next: Option<Pgid>, xs: seq<Inode>)
    requires InStep(a, pages, lv) && Beside(lv, id, next, xs) && id in a
    ensures a[id].inodes == xs && a[id].isLeaf && a[id].parent.Some?
  {
    Unfold(a, pages, lv);
    var i :| BesideAt(lv, i, id, next, xs);
    ShownIs(a, pages, lv, 0, i, id);
    Differ(lv, 0, i, |lv| - 1, 0);
    assert LinkOk(a, Root(lv).id, id);
  }

  lemma {:induction false} DropTraced(a: Nodes, lv: Stack, n: Pgid, p: Pgid, j: nat, q: nat, i: nat)
    requires WF(lv) && n in a && p in a && n != p && Above(lv, 0, j, q, i) && lv[0][j].id == n && |lv| > 1
    ensures Traced(lv, a, DropLeaf(lv, j, q, i), Drop(a, n, p), {n}, {})
  {
    var a', lv' := Drop(a, n, p), DropLeaf(lv, j, q, i);
    forall id, next, xs | Beside(lv, id, next, xs) ensures WentOrStands(a, lv', a', {n}, id, next, xs) {
      var o :| BesideAt(lv, o, id, next, xs);
      if o != j && o + 1 != j {
        var o' := if o > j then o - 1 else o;
        assert lv'[0] == RemoveAt(lv[0], j);
        assert BesideAt(lv', o', id, next, xs);
        Differ(lv, 0, o, 0, j);
      }
    }
  }

  lemma {:induction false} JoinTraced(a: Nodes, lv: Stack, l: Pgid, r: Pgid, p: Pgid, k: nat, j: nat, q: nat, i: nat)
    requires WF(lv) && l in a && r in a && p in a && l != r && l != p && r != p && Above(lv, k, j + 1, q, i)
    requires lv[k][j].id == l && lv[k][j + 1].id == r
    ensures Traced(lv, a, JoinNodes(lv, k, j, q, i), Join(a, l, r, p), {r}, {})
  {
    var a', lv' := Join(a, l, r, p), JoinNodes(lv, k, j, q, i);
    forall id, next, xs | Beside(lv, id, next, xs) ensures WentOrStands(a, lv', a', {r}, id, next, xs) {
      var o :| BesideAt(lv, o, id, next, xs);
      if k > 0 {
        assert lv'[0] == lv[0];
        assert BesideAt(lv', o, id, next, xs);
        Differ(lv, 0, o, k, j + 1);
      } else if o != j && o != j + 1 {
        var o' := if o > j then o - 1 else o;
        assert lv'[0] == Joined(lv[0], j);
        assert BesideAt(lv', o', id, next, xs);
        Differ(lv, 0, o, 0, j + 1);
      }
    }
  }

  /** The leaf that takes in another takes in the one to its right. */
  lemma {:induction false} JoinNext(lv: Stack, l: Pgid, r: Pgid, k: nat, j: nat)
    requires WF(lv) && k < |lv| && j + 1 < |lv[k]| && lv[k][j].id == l && lv[k][j + 1].id == r
    ensures forall next, xs :: Beside(lv, l, next, xs) ==> next == Some(r)
  {
    forall next, xs | Beside(lv, l, next, xs) ensures next == Some(r) {
      var o :| BesideAt(lv, o, l, next, xs);
      Unique(lv, 0, o, k, j);
    }
  }

  lemma {:induction false} CollapseTraced(a: Nodes, lv: Stack, c: Pgid)
    requires WF(lv) && |lv| > 1 && Root(lv).id in a && c in a && |lv[|lv| - 2]| == 1 && lv[|lv| - 2][0].id == c
    requires c != Root(lv).id
    ensures Traced(lv, a, Collapsed(lv), Collapse(a, Root(lv).id, c), {c}, {})
  {
    var a', lv' := Collapse(a, Root(lv).id, c), Collapsed(lv);
    forall id, next, xs | Beside(lv, id, next, xs) ensures WentOrStands(a, lv', a', {c}, id, next, xs) {
      var o :| BesideAt(lv, o, id, next, xs);
      if |lv| > 2 {
        assert lv'[0] == lv[0];
        assert BesideAt(lv', o, id, next, xs);
        Differ(lv, 0, o, |lv| - 2, 0);
      }
    }
  }

  /** An empty leaf goes; its parent is to be looked at next. */
  lemma {:induction false} DropStep(a: Nodes, pages: Pages, lv: Stack, n: Pgid, p: Pgid) returns (lv': Stack)
    requires InStep(a, pages, lv) && n in a && a[n].parent == Some(p) && a[n].inodes == []
    requires HealthyBut(lv, a, n)
    ensures p in a && InStep(Drop(a, n, p), pages, lv') && HealthyBut(lv', Drop(a, n, p), p)
    ensures Kept(lv, lv', n) && |lv'| == |lv| && At(lv', 1, p)
    ensures Marked(Drop(a, n, p)) <= Marked(a) + {p} && Drop(a, n, p)[p].unbalanced
    ensures a[p].parent != Some(n) && n != p && Traced(lv, a, lv', Drop(a, n, p), {n}, {})
  {
    Unfold(a, pages, lv);
    var j, q, i := EmptyPlace(a, pages, lv, n, p);
    ChildrenOf(a, pages, lv, p, n);
    DropTied(a, pages, lv, n, p, j, q, i);
    DropShapes(a, pages, lv, n, p, j, q, i);
    lv' := DropLeaf(lv, j, q, i);
    IdsIn(lv, 0, j);
    assert lv'[1][q].id == p;
    DropHealth(a, lv, n, p, j, q, i);
    DropTraced(a, lv, n, p, j, q, i);
  }

  /** Where an empty leaf and its parent are. */
  lemma {:induction false} EmptyPlace(a: Nodes, pages: Pages, lv: Stack, n: Pgid, p: Pgid)
    returns (j: nat, q: nat, i: nat)
    requires Tied(a, pages, lv) && n in a && a[n].parent == Some(p) && a[n].inodes == [] && HealthyBut(lv, a, n)
    ensures EmptyLeaf(a, pages, lv, n, p, j, q, i)
  {
    assert LinkOk(a, Root(lv).id, n);
    var k;
    k, j, q, i := PlaceChild(a, pages, lv, n);
    assert LevelOk(lv, k);
    Differ(lv, 1, q, 0, j);
    assert Healthy(lv, a, 1, q);
  }

  lemma {:induction false} DropHealth(a: Nodes, lv: Stack, n: Pgid, p: Pgid, j: nat, q: nat, i: nat)
    requires WF(lv) && n in a && p in a && Above(lv, 0, j, q, i) && lv[0][j].id == n && lv[1][q].id == p
      && HealthyBut(lv, a, n)
    ensures HealthyBut(DropLeaf(lv, j, q, i), Drop(a, n, p), p)
  {
    var a', lv': Stack := Drop(a, n, p), DropLeaf(lv, j, q, i);
    forall m, x | 0 <= m < |lv'| && 0 <= x < |lv'[m]| && lv'[m][x].id != p ensures Healthy(lv', a', m, x) {
      DropAt(lv, j, q, i, m, x);
      var o := if m == 0 && x >= j then x + 1 else x;
      Differ(lv, m, o, 0, j);
      assert Healthy(lv, a, m, o);
    }
  }

  /** The right one of two siblings, one of which is n, moves into the left one. */
  lemma {:induction false} JoinStep(a: Nodes, pages: Pages, lv: Stack, l: Pgid, r: Pgid, p: Pgid, n: Pgid, k: nat)
    returns (lv': Stack)
    requires InStep(a, pages, lv) && l in a && r in a && a[l].parent == Some(p) && a[r].parent == Some(p)
    requires IsEntry(a, l, p) && IsEntry(a, r, p)
    requires Search(a[p].inodes, a[l].key) + 1 == Search(a[p].inodes, a[r].key)
    requires (n == l || n == r) && At(lv, k, n) && a[n].inodes != [] && HealthyBut(lv, a, n)
    ensures InStep(Join(a, l, r, p), pages, lv') && HealthyBut(lv', Join(a, l, r, p), p)
    ensures Kept(lv, lv', r) && |lv'| == |lv| && At(lv', k + 1, p) && l != r && l != p && r != p
    ensures Marked(Join(a, l, r, p)) <= Marked(a) + {p} && Join(a, l, r, p)[p].unbalanced
    ensures a[p].parent != Some(r) && Traced(lv, a, lv', Join(a, l, r, p), {r}, {})
    ensures forall next, xs :: Beside(lv, l, next, xs) ==> next == Some(r)
  {
    Unfold(a, pages, lv);
    var j, q, i := SiblingPlaces(a, pages, lv, l, r, p, n, k);
    SiblingShapes(a, pages, lv, l, r, p, k, j, q, i);
    JoinTied(a, pages, lv, l, r, p, k, j, q, i);
    lv' := JoinNodes(lv, k, j, q, i);
    IdsIn(lv, k, j + 1);
    assert lv'[k + 1][q].id == p;
    JoinHealth(a, pages, lv, l, r, p, n, k, j, q, i);
    SiblingParents(a, pages, lv, l, r, p, k, j, q, i);
    JoinTraced(a, lv, l, r, p, k, j, q, i);
    JoinNext(lv, l, r, k, j);
  }

  /** What the two nodes and their parent hold before that step. */
  lemma {:induction false} JoinReady(a: Nodes, pages: Pages, lv: Stack, l: Pgid, r: Pgid, p: Pgid)
    requires InStep(a, pages, lv) && l in a && r in a && a[r].parent == Some(p) && IsEntry(a, l, p) && IsEntry(a, r, p)
    requires Search(a[p].inodes, a[l].key) + 1 == Search(a[p].inodes, a[r].key)
    ensures OwnKids(a, r) && Listed(a) && Asc(a[p].inodes) && Found(a[p].inodes, a[r].key)
  {
    OwnKidsHold(a, pages, lv, r);
  }

  lemma {:induction false} SiblingPlaces(a: Nodes, pages: Pages, lv: Stack, l: Pgid, r: Pgid, p: Pgid, n: Pgid, k: nat)
    returns (j: nat, q: nat, i: nat)
    requires Tied(a, pages, lv) && l in a && r in a && a[l].parent == Some(p) && a[r].parent == Some(p)
    requires IsEntry(a, l, p) && IsEntry(a, r, p)
    requires Search(a[p].inodes, a[l].key) + 1 == Search(a[p].inodes, a[r].key)
    requires (n == l || n == r) && At(lv, k, n)
    ensures Siblings(a, pages, lv, l, r, p, k, j, q, i) && lv[k + 1][q].inodes[i].pgid == r
  {
    assert LinkOk(a, Root(lv).id, l) && LinkOk(a, Root(lv).id, r);
    var k1, j1, q1, i1 := PlaceChild(a, pages, lv, l);
    var k2, j2, q2, i2 := PlaceChild(a, pages, lv, r);
    Unique(lv, k1 + 1, q1, k2 + 1, q2);
    SearchAt(a[p].inodes, i1);
    SearchAt(a[p].inodes, i2);
    var x :| 0 <= x < |lv[k]| && lv[k][x].id == n;
    Unique(lv, k, x, k1, if n == l then j1 else j2);
    j, q, i := j1, q2, i2;
  }

  lemma {:induction false} JoinHealth(a: Nodes, pages: Pages, lv: Stack, l: Pgid, r: Pgid, p: Pgid, n: Pgid,
                                      k: nat, j: nat, q: nat, i: nat)
    requires Siblings(a, pages, lv, l, r, p, k, j, q, i) && l != r && l != p && r != p
    requires (n == l || n == r) && a[n].inodes != [] && HealthyBut(lv, a, n)
    requires a[l].inodes == lv[k][j].inodes && a[r].inodes == lv[k][j + 1].inodes && a[l].isLeaf == (k == 0)
    ensures HealthyBut(JoinNodes(lv, k, j, q, i), Join(a, l, r, p), p)
  {
    var a': Nodes, lv': Stack := Join(a, l, r, p), JoinNodes(lv, k, j, q, i);
    forall m, x | 0 <= m < |lv'| && 0 <= x < |lv'[m]| && lv'[m][x].id != p ensures Healthy(lv', a', m, x) {
      if m == k && x == j {
        JoinedHealth(a, lv, l, r, n, k, j);
        JoinAt(lv, k, j, q, i, m, x);
      } else {
        JoinAt(lv, k, j, q, i, m, x);
        var o := if m == k && x > j then x + 1 else x;
        Differ(lv, m, o, k, j);
        Differ(lv, m, o, k, j + 1);
        assert Healthy(lv, a, m, o);
      }
    }
  }

  /** A node that takes in a sibling is full enough if either of them has entries. */
  lemma {:induction false} JoinedHealth(a: Nodes, lv: Stack, l: Pgid, r: Pgid, n: Pgid, k: nat, j: nat)
    requires WF(lv) && k < |lv| && j + 1 < |lv[k]| && lv[k][j].id == l && lv[k][j + 1].id == r && l != r
    requires n in a && (n == l || n == r) && a[n].inodes != [] && HealthyBut(lv, a, n)
    requires a[n].inodes == lv[k][if n == l then j else j + 1].inodes
    ensures if k > 0 then |lv[k][j].inodes + lv[k][j + 1].inodes| >= 2 else lv[k][j].inodes + lv[k][j + 1].inodes != []
  {
    assert LevelOk(lv, k);
    assert Healthy(lv, a, k, if n == l then j + 1 else j);
  }

  /** A root with one child takes its place. */
  lemma {:induction false} CollapseStep(a: Nodes, pages: Pages, lv: Stack, c: Pgid) returns (lv': Stack)
    requires InStep(a, pages, lv) && RootId(lv) in a && !a[RootId(lv)].isLeaf && c in a
    requires |a[RootId(lv)].inodes| == 1 && a[RootId(lv)].inodes[0].pgid == c
    requires HealthyBut(lv, a, RootId(lv))
    ensures c != RootId(lv) && a[c].parent == Some(RootId(lv))
    ensures KidsExactly(a, c) && Listed(a)
    ensures InStep(Collapse(a, RootId(lv), c), pages, lv') && AllHealthy(lv', Collapse(a, RootId(lv), c))
    ensures Kept(lv, lv', c)
    ensures Marked(Collapse(a, RootId(lv), c)) <= Marked(a)
    ensures Traced(lv, a, lv', Collapse(a, RootId(lv), c), {c}, {})
  {
    Unfold(a, pages, lv);
    var t, r := |lv| - 1, RootId(lv);
    var k, j := Place(a, pages, lv, r);
    CollapseShapes(a, pages, lv, c);
    CollapseTied(a, pages, lv, c);
    lv' := Collapsed(lv);
    CollapseTraced(a, lv, c);
    IdsIn(lv, t - 1, 0);
    forall id | id in a ensures PointsTo(a[c].inodes, id) <==> a[id].parent == Some(c) {
      ChildrenOf(a, pages, lv, id, c);
    }
    forall m, x | 0 <= m < |lv'| && 0 <= x < |lv'[m]| ensures Healthy(lv', Collapse(a, r, c), m, x) {
      CollapseAt(lv, m, x);
      Differ(lv, m, x, t, 0);
      Differ(lv, m, x, t - 1, 0);
      assert Healthy(lv, a, m, x);
    }
  }

  ghost function SetEntries(a: Nodes, n: Pgid, xs: seq<Inode>, marked: bool): Nodes
    requires n in a
  {
    a[n := a[n].(inodes := xs, unbalanced := marked)]
  }

  // ---- the root is read ----

  ghost function ReadRoot(a: Nodes, pages: Pages, root: Pgid): Nodes
    requires root in pages
  {
    a[root := FromPage(pages[root], None)]
  }

  /** Nothing is cached below a root that is not. */
  lemma {:induction false} NoneCached(a: Nodes, pages: Pages, lv: Stack, id: Pgid, k: nat)
    requires Tied(a, pages, lv) && Root(lv).id !in a && id in a && At(lv, k, id)
    ensures false
    decreases |lv| - k
  {
    var j :| 0 <= j < |lv[k]| && lv[k][j].id == id;
    var k', j', q, i := PlaceChild(a, pages, lv, id);
    Unique(lv, k, j, k', j');
    NoneCached(a, pages, lv, a[id].parent.value, k + 1);
  }

  lemma {:induction false} RootStep(a: Nodes, pages: Pages, lv: Stack)
    requires InStep(a, pages, lv) && RootId(lv) !in a && AllHealthy(lv, a)
    ensures a == map[] && RootId(lv) in pages && InStep(ReadRoot(a, pages, RootId(lv)), pages, lv)
    ensures AllHealthy(lv, ReadRoot(a, pages, RootId(lv)))
  {
    Unfold(a, pages, lv);
    var r := RootId(lv);
    forall id | id in a ensures false {
      var k, j := Place(a, pages, lv, id);
      NoneCached(a, pages, lv, id, k);
    }
    assert ShownAt(a, pages, lv, |lv| - 1, 0);
    var a' := ReadRoot(a, pages, r);
    IdsIn(lv, |lv| - 1, 0);
    forall k, j | 0 <= k < |lv| && 0 <= j < |lv[k]| ensures ShownAt(a', pages, lv, k, j) && Healthy(lv, a', k, j) {
      assert ShownAt(a, pages, lv, k, j) && Healthy(lv, a, k, j);
    }
    forall k, j | 0 < k < |lv| && 0 <= j < |lv[k]| ensures StrictAt(a', pages, lv, k, j) {
      assert StrictAt(a, pages, lv, k, j);
      assert forall e :: 0 <= e < |lv[k][j].inodes| ==> EntryStrict(a, pages, lv[k][j].inodes[e]);
    }
    assert LinkOk(a', r, r) && ListOk(a', r);
  }

  lemma {:induction false} ReadAllHealth(a: Nodes, pages: Pages, lv: Stack, id: Pgid, p: Pgid)
    requires id in pages && p in a && id !in a && id != p && AllHealthy(lv, a)
    ensures AllHealthy(lv, Materialise(a, pages, id, p)) && Marked(Materialise(a, pages, id, p)) == Marked(a)
  {
    forall k, j | 0 <= k < |lv| && 0 <= j < |lv[k]| ensures Healthy(lv, Materialise(a, pages, id, p), k, j) {
      assert Healthy(lv, a, k, j);
    }
  }
}
