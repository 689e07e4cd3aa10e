/** A whole B+tree as a stack of levels, and the four changes of shape that deletion, merging,
    root collapse and splitting make to it. Each keeps the tree well formed and its contents. */
module Tree {
  import opened Bytes
  import opened Pgids
  import opened Levels

  type Stack = seq<Level>

  ghost function IdsOf(l: Level): set<Pgid>
  {
    set r | r in l :: r.id
  }

  ghost predicate NoDup(l: Level)
  {
    forall i, j :: 0 <= i < j < |l| ==> l[i].id != l[j].id
  }

  ghost predicate Filled(l: Level)
  {
    forall j :: 0 <= j < |l| ==> l[j].inodes != []
  }

  /** The separators that bound the nodes of level k: the keys above them, where child 0 of a node
      inherits the lower bound of its parent, and the leftmost node has none (the empty key). */
  ghost function Seps(lv: Stack, k: nat): seq<Inode>
    requires k < |lv|
    decreases |lv| - k
  {
    if k == |lv| - 1 then (if lv[k] == [] then [] else [Inode(0, lv[k][0].id, [], [])])
    else Flat(Fenced(lv[k + 1], Seps(lv, k + 1)))
  }

  /** What holds of each level: ascending nodes within their separators, and not before the keys
      their parents store; no page twice; no empty branch. */
  ghost predicate LevelOk(lv: Stack, k: nat)
    requires k < |lv|
  {
    && AllAsc(lv[k]) && NoDup(lv[k]) && (k > 0 ==> Filled(lv[k]))
    && Fits(Seps(lv, k), lv[k])
    && (k + 1 < |lv| ==> Lower(Flat(lv[k + 1]), lv[k]))
  }

  ghost predicate Disjoint(lv: Stack)
  {
    forall k, m :: 0 <= k < m < |lv| ==> IdsOf(lv[k]) !! IdsOf(lv[m])
  }

  /** A well-formed tree: a single root above levels that are each in order. */
  ghost predicate WF(lv: Stack)
  {
    && |lv| > 0 && |lv[|lv| - 1]| == 1
    && (forall k :: 0 <= k < |lv| ==> LevelOk(lv, k))
    && Disjoint(lv)
  }

  ghost function Root(lv: Stack): Rec
    requires WF(lv)
  {
    lv[|lv| - 1][0]
  }

  /** The key/value entries of the bucket in key order. */
  ghost function Contents(lv: Stack): seq<Inode>
    requires |lv| > 0
  {
    Flat(lv[0])
  }

  /** All pages of the tree. */
  ghost function Ids(lv: Stack): set<Pgid>
  {
    set k, r | 0 <= k < |lv| && r in lv[k] :: r.id
  }

  /** Bounding the first entries of a level leaves it in order, and never exceeds its keys. */
  lemma {:induction false} FencedFits(u: Level, g: seq<Inode>)
    requires Asc(g) && Fits(g, u) && AllAsc(u)
    ensures Fits(g, Fenced(u, g)) && AllAsc(Fenced(u, g)) && Asc(Flat(Fenced(u, g)))
  {
    var f := Fenced(u, g);
    forall q | 0 <= q < |u| ensures Asc(f[q].inodes) && Within(g, q, f[q].inodes) {
      assert Within(g, q, u[q].inodes);
      assert forall i :: 0 < i < |u[q].inodes| ==> f[q].inodes[i] == u[q].inodes[i];
      if q + 1 < |g| {
        assert Lt(g[q].key, g[q + 1].key);
      }
    }
    FlatAsc(g, f);
  }

  lemma {:induction false} FencedBelow(u: Level, g: seq<Inode>)
    requires Fits(g, u)
    ensures |Flat(Fenced(u, g))| == |Flat(u)|
    ensures forall p :: 0 <= p < |Flat(u)| ==>
      && Flat(Fenced(u, g))[p].pgid == Flat(u)[p].pgid
      && Le(Flat(Fenced(u, g))[p].key, Flat(u)[p].key)
  {
    FencedOff(u, g, 0);
    forall p | 0 <= p < |Flat(u)|
      ensures Flat(Fenced(u, g))[p].pgid == Flat(u)[p].pgid
      ensures Le(Flat(Fenced(u, g))[p].key, Flat(u)[p].key)
    {
      var q, i := FencedOne(u, g, p);
      assert Within(g, q, u[q].inodes);
    }
  }

  /** f2 bounds the same nodes as f1, nowhere lower. */
  ghost predicate Raised(f1: seq<Inode>, f2: seq<Inode>)
  {
    |f1| == |f2| && forall m :: 0 <= m < |f1| ==> f2[m].pgid == f1[m].pgid && Le(f1[m].key, f2[m].key)
  }

  lemma {:induction false} FencedRaised(u: Level, g1: seq<Inode>, g2: seq<Inode>)
    requires Raised(g1, g2) && |g1| == |u|
    ensures Raised(Flat(Fenced(u, g1)), Flat(Fenced(u, g2)))
  {
    FencedOff(u, g1, 0);
    FencedOff(u, g2, 0);
    var f1, f2 := Flat(Fenced(u, g1)), Flat(Fenced(u, g2));
    forall p | 0 <= p < |f1| ensures f2[p].pgid == f1[p].pgid && Le(f1[p].key, f2[p].key) {
      var q, i := FencedOne(u, g1, p);
      FencedAt(u, g2, q, i);
    }
  }

  /** Entry p of the bounded level. */
  lemma {:induction false} FencedOne(u: Level, g: seq<Inode>, p: nat) returns (q: nat, i: nat)
    requires p < |Flat(u)|
    ensures q < |u| && i < |u[q].inodes| && p == Off(u, q) + i && |Flat(Fenced(u, g))| == |Flat(u)|
    ensures Flat(u)[p] == u[q].inodes[i]
    ensures Flat(Fenced(u, g))[p] == (
      if i == 0 then u[q].inodes[0].(key := if q < |g| then g[q].key else []) else u[q].inodes[i])
  {
    q, i := Locate(u, p);
    FencedAt(u, g, q, i);
  }

  /** The separators of a level ascend from the empty key. */
  ghost predicate SepsOk(f: seq<Inode>)
  {
    Asc(f) && f != [] && f[0].key == []
  }

  lemma {:induction false} FencedSeps(u: Level, g: seq<Inode>)
    requires SepsOk(g) && Fits(g, u) && AllAsc(u) && Filled(u)
    ensures SepsOk(Flat(Fenced(u, g)))
  {
    FencedFits(u, g);
    FencedAt(u, g, 0, 0);
    assert u[..0] == [];
  }

  lemma {:induction false} SepsAsc(lv: Stack, k: nat)
    requires WF(lv) && k < |lv|
    ensures SepsOk(Seps(lv, k))
    decreases |lv| - k
  {
    if k < |lv| - 1 {
      SepsAsc(lv, k + 1);
      assert LevelOk(lv, k + 1);
      FencedSeps(lv[k + 1], Seps(lv, k + 1));
    }
  }

  lemma {:induction false} LevelAsc(lv: Stack, k: nat)
    requires WF(lv) && k < |lv|
    ensures Asc(Flat(lv[k]))
  {
    SepsAsc(lv, k);
    assert LevelOk(lv, k);
    FlatAsc(Seps(lv, k), lv[k]);
  }

  /** Each separator of level k belongs to one entry of the level above. */
  lemma {:induction false} SepsBelow(lv: Stack, k: nat)
    requires WF(lv) && k + 1 < |lv|
    ensures |Seps(lv, k)| == |Flat(lv[k + 1])| == |lv[k]|
    ensures forall p :: 0 <= p < |lv[k]| ==>
      && Flat(lv[k + 1])[p].pgid == Seps(lv, k)[p].pgid == lv[k][p].id
      && Le(Seps(lv, k)[p].key, Flat(lv[k + 1])[p].key)
  {
    assert LevelOk(lv, k) && LevelOk(lv, k + 1);
    FencedBelow(lv[k + 1], Seps(lv, k + 1));
  }

  /** A page names one node of the tree. */
  lemma {:induction false} Unique(lv: Stack, k: nat, j: nat, m: nat, i: nat)
    requires WF(lv) && k < |lv| && m < |lv| && j < |lv[k]| && i < |lv[m]| && lv[k][j].id == lv[m][i].id
    ensures k == m && j == i
  {
    assert lv[k][j] in lv[k] && lv[m][i] in lv[m];
    assert lv[k][j].id in IdsOf(lv[k]) && lv[m][i].id in IdsOf(lv[m]);
    assert LevelOk(lv, k);
  }

  lemma {:induction false} Differ(lv: Stack, k: nat, j: nat, m: nat, i: nat)
    requires WF(lv) && k < |lv| && m < |lv| && j < |lv[k]| && i < |lv[m]|
    ensures lv[k][j].id == lv[m][i].id ==> k == m && j == i
  {
    if lv[k][j].id == lv[m][i].id {
      Unique(lv, k, j, m, i);
    }
  }

  /** Levels k and k + 1 after a local change. */
  ghost function Changed(lv: Stack, k: nat, l: Level, u: Level): Stack
    requires k + 1 < |lv|
  {
    lv[k := l][k + 1 := u]
  }

  ghost predicate SameIds(u: Level, v: Level)
  {
    |u| == |v| && forall q :: 0 <= q < |u| ==> u[q].id == v[q].id
  }

  lemma {:induction false} SameIdsOf(u: Level, v: Level)
    requires SameIds(u, v)
    ensures IdsOf(u) == IdsOf(v)
  {
    forall id | id in IdsOf(u) ensures id in IdsOf(v) {
      var q :| 0 <= q < |u| && u[q].id == id;
      assert v[q] in v;
    }
    forall id | id in IdsOf(v) ensures id in IdsOf(u) {
      var q :| 0 <= q < |v| && v[q].id == id;
      assert u[q] in u;
    }
  }

  /** The parent level of a change: the same nodes, within the bounds they had. */
  ghost predicate UpperOk(lv: Stack, k: nat, u: Level)
    requires k + 1 < |lv|
  {
    && SameIds(u, lv[k + 1]) && AllAsc(u) && Filled(u) && Fits(Seps(lv, k + 1), u)
    && (k + 2 < |lv| ==> Lower(Flat(lv[k + 2]), u))
  }

  /** The changed level: in order below the new parents, holding what it held, and bounding the
      level below it no tighter. */
  ghost predicate LowerOk(lv: Stack, k: nat, l: Level, u: Level)
    requires k + 1 < |lv|
  {
    var f := Flat(Fenced(u, Seps(lv, k + 1)));
    && AllAsc(l) && NoDup(l) && Fits(f, l) && Lower(Flat(u), l) && Flat(l) == Flat(lv[k])
    && (k > 0 ==> Filled(l) && Raised(Flat(Fenced(lv[k], Seps(lv, k))), Flat(Fenced(l, f))))
  }

  lemma {:induction false} SepsAbove(lv: Stack, lv': Stack, m: nat)
    requires |lv| == |lv'| && m < |lv|
    requires forall n :: m < n < |lv| ==> lv'[n] == lv[n]
    requires SameIds(lv'[m], lv[m])
    ensures Seps(lv', m) == Seps(lv, m)
    decreases |lv| - m
  {
    if m < |lv| - 1 {
      SepsAbove(lv, lv', m + 1);
    }
  }

  /** The separators of level m after a change at level k: in order, around the nodes of the level, and
      below the change nowhere lower than before. */
  ghost predicate SepsMoved(lv: Stack, lv': Stack, k: nat, m: nat)
    requires m < |lv| && m < |lv'|
  {
    SepsOk(Seps(lv', m)) && Fits(Seps(lv', m), lv'[m]) && (m < k ==> Raised(Seps(lv, m), Seps(lv', m)))
  }

  /** From the changed level, or one below it, to the next below. */
  lemma {:induction false} SepsDown(lv: Stack, lv': Stack, k: nat, m: nat)
    requires m < k < |lv| == |lv'| && lv'[m] == lv[m] && LevelOk(lv, m) && LevelOk(lv, m + 1)
    requires SepsMoved(lv, lv', k, m + 1) && SepsOk(Seps(lv, m)) && AllAsc(lv'[m + 1]) && Filled(lv'[m + 1])
    requires Flat(lv'[m + 1]) == Flat(lv[m + 1])
    requires Raised(Flat(Fenced(lv[m + 1], Seps(lv, m + 1))), Flat(Fenced(lv'[m + 1], Seps(lv', m + 1))))
    ensures SepsMoved(lv, lv', k, m)
  {
    RaisedFits(Seps(lv, m), Flat(lv[m + 1]), lv[m], lv'[m + 1], Seps(lv', m + 1));
  }

  lemma {:induction false} SepsChanged(lv: Stack, k: nat, l: Level, u: Level)
    requires WF(lv) && k + 1 < |lv| && UpperOk(lv, k, u) && LowerOk(lv, k, l, u)
    ensures SepsMoved(lv, Changed(lv, k, l, u), k, k)
    ensures Seps(Changed(lv, k, l, u), k) == Flat(Fenced(u, Seps(lv, k + 1)))
  {
    SepsAbove(lv, Changed(lv, k, l, u), k + 1);
    SepsAsc(lv, k + 1);
    FencedSeps(u, Seps(lv, k + 1));
  }

  lemma {:induction false} SepsLower(lv: Stack, k: nat, l: Level, u: Level, m: nat)
    requires WF(lv) && k + 1 < |lv| && UpperOk(lv, k, u) && LowerOk(lv, k, l, u) && m <= k
    ensures SepsMoved(lv, Changed(lv, k, l, u), k, m)
    decreases k - m
  {
    var lv' := Changed(lv, k, l, u);
    SepsChanged(lv, k, l, u);
    if m < k {
      SepsLower(lv, k, l, u, m + 1);
      LevelPair(lv, m);
      if m + 1 < k {
        FencedRaised(lv[m + 1], Seps(lv, m + 1), Seps(lv', m + 1));
      }
      SepsDown(lv, lv', k, m);
    }
  }

  lemma {:induction false} LevelPair(lv: Stack, m: nat)
    requires WF(lv) && m + 1 < |lv|
    ensures LevelOk(lv, m) && LevelOk(lv, m + 1) && SepsOk(Seps(lv, m)) && |Seps(lv, m + 1)| == |lv[m + 1]|
  {
    SepsAsc(lv, m);
  }

  lemma {:induction false} SepsDef(lv: Stack, k: nat)
    requires WF(lv) && k + 1 < |lv|
    ensures Seps(lv, k) == Flat(Fenced(lv[k + 1], Seps(lv, k + 1)))
    ensures |Seps(lv, k)| == |lv[k]| && |Seps(lv, k + 1)| == |lv[k + 1]|
  {
    assert LevelOk(lv, k) && LevelOk(lv, k + 1);
  }

  /** A level stays in order when the bounds of its parents move up. */
  lemma {:induction false} RaisedFits(f: seq<Inode>, e: seq<Inode>, l: Level, v: Level, g: seq<Inode>)
    requires SepsOk(g) && Fits(g, v) && AllAsc(v) && Filled(v) && Flat(v) == e
    requires SepsOk(f) && Fits(f, l) && Lower(e, l) && Raised(f, Flat(Fenced(v, g)))
    ensures SepsOk(Flat(Fenced(v, g))) && Fits(Flat(Fenced(v, g)), l)
  {
    FencedSeps(v, g);
    FencedBelow(v, g);
    FitsRaised(f, Flat(Fenced(v, g)), e, l);
  }

  lemma {:induction false} ChangedLevel(lv: Stack, k: nat, l: Level, u: Level, m: nat)
    requires WF(lv) && k + 1 < |lv| && UpperOk(lv, k, u) && LowerOk(lv, k, l, u) && m < |lv|
    ensures LevelOk(Changed(lv, k, l, u), m)
  {
    if m <= k {
      SepsLower(lv, k, l, u, m);
      ChangedBelow(lv, Changed(lv, k, l, u), k, l, u, m);
    } else {
      ChangedAbove(lv, Changed(lv, k, l, u), k, l, u, m);
    }
  }

  lemma {:induction false} ChangedBelow(lv: Stack, lv': Stack, k: nat, l: Level, u: Level, m: nat)
    requires WF(lv) && k + 1 < |lv| && LowerOk(lv, k, l, u) && m <= k && lv' == Changed(lv, k, l, u)
    requires SepsMoved(lv, lv', k, m)
    ensures LevelOk(lv', m)
  {
    assert LevelOk(lv, m);
    assert m < k ==> lv'[m] == lv[m] && Flat(lv'[m + 1]) == Flat(lv[m + 1]);
  }

  lemma {:induction false} ChangedAbove(lv: Stack, lv': Stack, k: nat, l: Level, u: Level, m: nat)
    requires WF(lv) && k < m < |lv| && UpperOk(lv, k, u) && lv' == Changed(lv, k, l, u)
    ensures LevelOk(lv', m)
  {
    assert LevelOk(lv, m);
    SepsAbove(lv, lv', m);
    if m == k + 1 {
      SameNoDup(u, lv[m]);
    }
  }

  lemma {:induction false} SameNoDup(u: Level, v: Level)
    requires SameIds(u, v) && NoDup(v)
    ensures NoDup(u)
  {
  }

  lemma {:induction false} ChangedDisjoint(lv: Stack, k: nat, l: Level, u: Level)
    requires Disjoint(lv) && k + 1 < |lv| && SameIds(u, lv[k + 1])
    requires forall m :: 0 <= m < |lv| && m != k ==> IdsOf(l) !! IdsOf(lv[m])
    ensures Disjoint(Changed(lv, k, l, u))
  {
    var lv' := Changed(lv, k, l, u);
    SameIdsOf(u, lv[k + 1]);
    forall m, n | 0 <= m < n < |lv| ensures IdsOf(lv'[m]) !! IdsOf(lv'[n]) {
      assert IdsOf(lv[m]) !! IdsOf(lv[n]);
    }
  }

  lemma {:induction false} ChangedWF(lv: Stack, k: nat, l: Level, u: Level)
    requires WF(lv) && k + 1 < |lv| && UpperOk(lv, k, u) && LowerOk(lv, k, l, u)
    requires forall m :: 0 <= m < |lv| && m != k ==> IdsOf(l) !! IdsOf(lv[m])
    ensures WF(Changed(lv, k, l, u)) && Contents(Changed(lv, k, l, u)) == Contents(lv)
  {
    var lv' := Changed(lv, k, l, u);
    forall m | 0 <= m < |lv'| ensures LevelOk(lv', m) {
      ChangedLevel(lv, k, l, u, m);
    }
    ChangedDisjoint(lv, k, l, u);
  }

  /** The parent of a node that goes: node q of level k + 1 loses entry i. */
  ghost function Cut(u: Level, q: nat, i: nat): Level
    requires q < |u| && i < |u[q].inodes|
  {
    SetInodes(u, q, RemoveAt(u[q].inodes, i))
  }

  /** Entry i of node q of level k + 1 stands for node j of level k. */
  ghost predicate Above(lv: Stack, k: nat, j: nat, q: nat, i: nat)
  {
    && k + 1 < |lv| && j < |lv[k]| && q < |lv[k + 1]| && i < |lv[k + 1][q].inodes|
    && Off(lv[k + 1], q) + i == j
  }

  lemma {:induction false} CutUpper(lv: Stack, k: nat, j: nat, q: nat, i: nat)
    requires WF(lv) && Above(lv, k, j, q, i) && |lv[k + 1][q].inodes| > 1
    ensures UpperOk(lv, k, Cut(lv[k + 1], q, i))
  {
    assert LevelOk(lv, k + 1);
    var xs, ys := lv[k + 1][q].inodes, RemoveAt(lv[k + 1][q].inodes, i);
    FitsFewer(Seps(lv, k + 1), lv[k + 1], q, i);
    assert forall m :: 0 <= m < |ys| ==> ys[m] == xs[if m < i then m else m + 1];
    assert AllAsc(Cut(lv[k + 1], q, i));
  }

  lemma {:induction false} FewerIds(lv: Stack, k: nat, l: Level)
    requires Disjoint(lv) && k < |lv| && IdsOf(l) <= IdsOf(lv[k])
    ensures forall m :: 0 <= m < |lv| && m != k ==> IdsOf(l) !! IdsOf(lv[m])
  {
    forall m | 0 <= m < |lv| && m != k ensures IdsOf(l) !! IdsOf(lv[m]) {
      assert if m < k then IdsOf(lv[m]) !! IdsOf(lv[k]) else IdsOf(lv[k]) !! IdsOf(lv[m]);
    }
  }

  lemma {:induction false} RemovedIds(l: Level, j: nat)
    requires j < |l|
    ensures IdsOf(RemoveAt(l, j)) <= IdsOf(l)
  {
    forall r | r in RemoveAt(l, j) ensures r in l {
    }
  }

  lemma {:induction false} JoinedIds(l: Level, j: nat)
    requires j + 1 < |l|
    ensures IdsOf(Joined(l, j)) <= IdsOf(l)
  {
    forall r | r in Joined(l, j) ensures r.id in IdsOf(l) {
      assert r in l || r.id == l[j].id;
      assert l[j] in l;
    }
  }

  lemma {:induction false} FencedSet(u: Level, g: seq<Inode>, q: nat, xs: seq<Inode>)
    requires q < |u| && |g| == |u|
    ensures Fenced(SetInodes(u, q, xs), g) == SetInodes(Fenced(u, g), q, FenceNode(xs, g[q].key))
  {
    var a, b := Fenced(SetInodes(u, q, xs), g), SetInodes(Fenced(u, g), q, FenceNode(xs, g[q].key));
    forall m | 0 <= m < |u| ensures a[m] == b[m] {
      assert m != q ==> SetInodes(u, q, xs)[m] == u[m];
    }
  }

  /** Bounding commutes with cutting an entry; if that was a first entry, the next one inherits
      its bound. */
  lemma {:induction false} FencedCut(u: Level, g: seq<Inode>, q: nat, i: nat)
    requires q < |u| && 1 < |u[q].inodes| && i < |u[q].inodes| && |g| == |u|
    ensures var f := Flat(Fenced(u, g));
            var p := Off(u, q) + i;
            && p < |f| == |Flat(u)| && (i == 0 ==> p + 1 < |f|)
            && Flat(Fenced(Cut(u, q, i), g))
               == if i > 0 then RemoveAt(f, p) else RemoveAt(f, p)[p := f[p + 1].(key := f[p].key)]
  {
    FencedAt(u, g, q, i);
    if i > 0 {
      FencedCutLater(u, g, q, i);
    } else {
      FencedCutFirst(u, g, q);
    }
  }

  lemma {:induction false} FencedCutLater(u: Level, g: seq<Inode>, q: nat, i: nat)
    requires q < |u| && 0 < i < |u[q].inodes| && |g| == |u|
    ensures Off(u, q) + i < |Flat(Fenced(u, g))|
    ensures Flat(Fenced(Cut(u, q, i), g)) == RemoveAt(Flat(Fenced(u, g)), Off(u, q) + i)
  {
    var f := Fenced(u, g);
    FencedOff(u, g, q);
    FencedSet(u, g, q, RemoveAt(u[q].inodes, i));
    FenceLater(u[q].inodes, i, g[q].key);
    FlatDel(f, q, i);
  }

  lemma {:induction false} FenceLater(xs: seq<Inode>, i: nat, key: Key)
    requires 0 < i < |xs|
    ensures FenceNode(RemoveAt(xs, i), key) == RemoveAt(FenceNode(xs, key), i)
  {
  }

  lemma {:induction false} FencedCutFirst(u: Level, g: seq<Inode>, q: nat)
    requires q < |u| && 1 < |u[q].inodes| && |g| == |u|
    ensures var f, p := Flat(Fenced(u, g)), Off(u, q);
            && p + 1 < |f| && Flat(Fenced(Cut(u, q, 0), g)) == RemoveAt(f, p)[p := f[p + 1].(key := f[p].key)]
  {
    var f, xs := Fenced(u, g), u[q].inodes;
    FencedAt(u, g, q, 0);
    FencedOff(u, g, q);
    FencedSet(u, g, q, RemoveAt(xs, 0));
    FenceFirst(xs, g[q].key);
    CutFirst(f, q, g[q].key);
  }

  lemma {:induction false} FenceFirst(xs: seq<Inode>, key: Key)
    requires 1 < |xs|
    ensures var x := FenceNode(xs, key);
            FenceNode(RemoveAt(xs, 0), key) == [x[1].(key := key)] + x[2..]
  {
    assert RemoveAt(xs, 0) == xs[1..];
  }

  lemma {:induction false} CutFirst(f: Level, q: nat, key: Key)
    requires q < |f| && 1 < |f[q].inodes|
    ensures var p, x := Off(f, q), f[q].inodes;
            && p + 1 < |Flat(f)| && Flat(f)[p + 1] == x[1]
            && Flat(SetInodes(f, q, [x[1].(key := key)] + x[2..]))
               == RemoveAt(Flat(f), p)[p := x[1].(key := key)]
  {
    var x := f[q].inodes;
    FlatSplit(f, q);
    FlatSet(f, q, [x[1].(key := key)] + x[2..]);
    MiddleFirst(Flat(f[..q]), x, Flat(f[q + 1..]), x[1].(key := key));
  }

  lemma {:induction false} MiddleFirst<T>(a: seq<T>, x: seq<T>, b: seq<T>, y: T)
    requires 1 < |x|
    ensures (a + x + b)[|a| + 1] == x[1]
    ensures a + ([y] + x[2..]) + b == RemoveAt(a + x + b, |a|)[|a| := y]
  {
    assert RemoveAt(a + x + b, |a|) == a + x[1..] + b;
  }

  /** The emptied leaf j goes, with its entry in the parent. */
  ghost function DropLeaf(lv: Stack, j: nat, q: nat, i: nat): Stack
    requires Above(lv, 0, j, q, i)
  {
    Changed(lv, 0, RemoveAt(lv[0], j), Cut(lv[1], q, i))
  }

  lemma {:induction false} DropLeafFits(lv: Stack, j: nat, q: nat, i: nat)
    requires WF(lv) && Above(lv, 0, j, q, i) && |lv[1][q].inodes| > 1 && lv[0][j].inodes == []
    ensures Fits(Flat(Fenced(Cut(lv[1], q, i), Seps(lv, 1))), RemoveAt(lv[0], j))
    ensures AllAsc(RemoveAt(lv[0], j))
  {
    SepsDef(lv, 0);
    SepsAsc(lv, 0);
    assert LevelOk(lv, 0);
    DropCut(lv[1], Seps(lv, 1), q, i, lv[0], j);
  }

  lemma {:induction false} DropCut(u: Level, g: seq<Inode>, q: nat, i: nat, l: Level, j: nat)
    requires q < |u| && 1 < |u[q].inodes| && i < |u[q].inodes| && |g| == |u| && j == Off(u, q) + i && j < |l|
    requires SepsOk(Flat(Fenced(u, g))) && Fits(Flat(Fenced(u, g)), l) && AllAsc(l)
    ensures Fits(Flat(Fenced(Cut(u, q, i), g)), RemoveAt(l, j)) && AllAsc(RemoveAt(l, j))
  {
    FencedCut(u, g, q, i);
    DropSeps(Flat(Fenced(u, g)), Flat(Fenced(Cut(u, q, i), g)), l, j, i);
  }

  lemma {:induction false} DropLeafLower(lv: Stack, j: nat, q: nat, i: nat)
    requires WF(lv) && Above(lv, 0, j, q, i) && |lv[1][q].inodes| > 1 && lv[0][j].inodes == []
    ensures LowerOk(lv, 0, RemoveAt(lv[0], j), Cut(lv[1], q, i))
  {
    var l, u := RemoveAt(lv[0], j), Cut(lv[1], q, i);
    assert LevelOk(lv, 0);
    DropLeafFits(lv, j, q, i);
    assert Lower(Flat(u), l) by {
      FlatDel(lv[1], q, i);
      SepsBelow(lv, 0);
      LowerRemove(Flat(lv[1]), lv[0], j);
    }
    FlatRemove(lv[0], j);
    RemoveNoDup(lv[0], j);
  }

  lemma {:induction false} RemoveNoDup(l: Level, j: nat)
    requires NoDup(l) && j < |l|
    ensures NoDup(RemoveAt(l, j))
    ensures forall m :: 0 <= m < |l| - 1 ==> RemoveAt(l, j)[m] == l[if m < j then m else m + 1]
  {
  }

  lemma {:induction false} DropSeps(f: seq<Inode>, f': seq<Inode>, l: Level, j: nat, i: nat)
    requires SepsOk(f) && Fits(f, l) && AllAsc(l) && j < |l| && (i == 0 ==> j + 1 < |l|)
    requires f' == if i > 0 then RemoveAt(f, j) else RemoveAt(f, j)[j := f[j + 1].(key := f[j].key)]
    ensures Fits(f', RemoveAt(l, j)) && AllAsc(RemoveAt(l, j))
  {
    RemovedIndex(f, j);
    if i > 0 {
      DropKey(f, f', j);
    } else {
      assert f'[j] == f[j + 1].(key := f[j].key);
    }
    FitsRemove(f, l, j, f');
  }

  lemma {:induction false} DropKey(f: seq<Inode>, f': seq<Inode>, j: nat)
    requires SepsOk(f) && j < |f| && f' == RemoveAt(f, j)
    ensures j < |f'| ==> f'[j] == f[j + 1] && Le(f[j].key, f'[j].key)
  {
    assert j + 1 < |f| ==> Lt(f[j].key, f[j + 1].key);
  }

  lemma {:induction false} DropLeafWF(lv: Stack, j: nat, q: nat, i: nat)
    requires WF(lv) && Above(lv, 0, j, q, i) && |lv[1][q].inodes| > 1 && lv[0][j].inodes == []
    ensures WF(DropLeaf(lv, j, q, i)) && Contents(DropLeaf(lv, j, q, i)) == Contents(lv)
  {
    var l := RemoveAt(lv[0], j);
    CutUpper(lv, 0, j, q, i);
    DropLeafLower(lv, j, q, i);
    RemovedIds(lv[0], j);
    FewerIds(lv, 0, l);
    ChangedWF(lv, 0, l, Cut(lv[1], q, i));
  }

  /** Node j of level k takes over its right neighbour, whose entry in the common parent is i. */
  ghost function JoinNodes(lv: Stack, k: nat, j: nat, q: nat, i: nat): Stack
    requires Above(lv, k, j + 1, q, i)
  {
    Changed(lv, k, Joined(lv[k], j), Cut(lv[k + 1], q, i))
  }

  /** Joining leaves the bounds of the nodes below as they are, or moves one up. */
  lemma {:induction false} FencedJoined(l: Level, f: seq<Inode>, j: nat)
    requires Fits(f, l) && j + 1 < |l| && Filled(l)
    ensures Filled(Joined(l, j))
    ensures Raised(Flat(Fenced(l, f)), Flat(Fenced(Joined(l, j), RemoveAt(f, j + 1))))
  {
    var a, b := Fenced(l, f), Fenced(Joined(l, j), RemoveAt(f, j + 1));
    FlatSplitTwo(a, j);
    FlatSplit(b, j);
    FencedJoinedParts(l, f, j);
    FenceRaised(a[j].inodes, l[j + 1].inodes, f, j + 1);
    RaisedMiddle(Flat(a[..j]), a[j].inodes + a[j + 1].inodes, b[j].inodes, Flat(a[j + 2..]));
  }

  lemma {:induction false} FenceRaised(x: seq<Inode>, y: seq<Inode>, f: seq<Inode>, j: nat)
    requires j < |f| && Within(f, j, y)
    ensures Raised(x + FenceNode(y, f[j].key), x + y)
  {
    var z := FenceNode(y, f[j].key);
    forall m | 0 <= m < |y| ensures z[m].pgid == y[m].pgid && Le(z[m].key, y[m].key) {
      FenceAt(y, f[j].key, m);
    }
    RaisedAfter(x, z, y);
  }

  lemma {:induction false} RaisedAfter(x: seq<Inode>, y: seq<Inode>, z: seq<Inode>)
    requires Raised(y, z)
    ensures Raised(x + y, x + z)
  {
  }

  lemma {:induction false} FencedJoinedParts(l: Level, f: seq<Inode>, j: nat)
    requires |f| == |l| && j + 1 < |l| && Filled(l)
    ensures var a, b := Fenced(l, f), Fenced(Joined(l, j), RemoveAt(f, j + 1));
            && |b| == |a| - 1 && a[..j] == b[..j] && a[j + 2..] == b[j + 1..]
            && b[j].inodes == a[j].inodes + l[j + 1].inodes
    ensures Filled(Joined(l, j))
  {
    var l', f', x, y := Joined(l, j), RemoveAt(f, j + 1), l[j].inodes, l[j + 1].inodes;
    JoinedIndex(l, j);
    RemovedIndex(f, j + 1);
    assert FenceNode(x + y, f[j].key) == FenceNode(x, f[j].key) + y;
    var a, b := Fenced(l, f), Fenced(l', f');
    forall m | 0 <= m < j ensures a[m] == b[m] {
    }
    forall m | j + 1 < m < |a| ensures a[m] == b[m - 1] {
    }
    SamePart(a, b, j);
  }

  lemma {:induction false} SamePart(a: Level, b: Level, j: nat)
    requires |b| == |a| - 1 && j + 1 < |a|
    requires (forall m :: 0 <= m < j ==> a[m] == b[m]) && forall m :: j + 1 < m < |a| ==> a[m] == b[m - 1]
    ensures a[..j] == b[..j] && a[j + 2..] == b[j + 1..]
  {
  }

  lemma {:induction false} JoinedIndex(l: Level, j: nat)
    requires j + 1 < |l|
    ensures |Joined(l, j)| == |l| - 1 && Joined(l, j)[j].inodes == l[j].inodes + l[j + 1].inodes
    ensures forall m :: 0 <= m < |l| - 1 && m != j ==> Joined(l, j)[m] == l[if m < j then m else m + 1]
  {
  }

  lemma {:induction false} RemovedIndex<T>(f: seq<T>, j: nat)
    requires j < |f|
    ensures |RemoveAt(f, j)| == |f| - 1
    ensures forall m :: 0 <= m < |f| - 1 ==> RemoveAt(f, j)[m] == f[if m < j then m else m + 1]
  {
  }

  lemma {:induction false} RaisedMiddle(a: seq<Inode>, y: seq<Inode>, y': seq<Inode>, b: seq<Inode>)
    requires Raised(y, y')
    ensures Raised(a + y + b, a + y' + b)
  {
  }

  lemma {:induction false} FlatSplitTwo(l: Level, j: nat)
    requires j + 1 < |l|
    ensures Flat(l) == Flat(l[..j]) + (l[j].inodes + l[j + 1].inodes) + Flat(l[j + 2..])
  {
    FlatSplit(l, j);
    FlatSplit(l[j + 1..], 0);
    assert l[j + 1..][0 + 1..] == l[j + 2..] && l[j + 1..][..0] == [];
  }

  lemma {:induction false} JoinedNoDup(l: Level, j: nat)
    requires NoDup(l) && j + 1 < |l|
    ensures NoDup(Joined(l, j))
    ensures forall m :: 0 <= m < |l| - 1 ==> Joined(l, j)[m].id == l[if m <= j then m else m + 1].id
  {
  }

  /** The separators of the level after joining: those before, without the right node's. */
  lemma {:induction false} JoinSeps(lv: Stack, k: nat, j: nat, q: nat, i: nat)
    requires WF(lv) && Above(lv, k, j + 1, q, i) && i > 0
    ensures j + 1 < |Seps(lv, k)| == |lv[k]|
    ensures Flat(Fenced(Cut(lv[k + 1], q, i), Seps(lv, k + 1))) == RemoveAt(Seps(lv, k), j + 1)
  {
    SepsDef(lv, k);
    FencedCutLater(lv[k + 1], Seps(lv, k + 1), q, i);
  }

  lemma {:induction false} JoinFits(lv: Stack, k: nat, j: nat, q: nat, i: nat)
    requires WF(lv) && Above(lv, k, j + 1, q, i) && i > 0 && |Seps(lv, k)| == |lv[k]|
    ensures var l, f' := Joined(lv[k], j), RemoveAt(Seps(lv, k), j + 1);
            && Fits(f', l) && AllAsc(l) && NoDup(l) && Flat(l) == Flat(lv[k])
            && (k > 0 ==> Filled(l) && Raised(Flat(Fenced(lv[k], Seps(lv, k))), Flat(Fenced(l, f'))))
  {
    assert LevelOk(lv, k);
    SepsAsc(lv, k);
    FitsJoined(Seps(lv, k), lv[k], j);
    if k > 0 {
      FencedJoined(lv[k], Seps(lv, k), j);
    }
    FlatJoined(lv[k], j);
    JoinedNoDup(lv[k], j);
  }

  lemma {:induction false} JoinLower(lv: Stack, k: nat, j: nat, q: nat, i: nat)
    requires WF(lv) && Above(lv, k, j + 1, q, i) && i > 0
    ensures LowerOk(lv, k, Joined(lv[k], j), Cut(lv[k + 1], q, i))
  {
    JoinSeps(lv, k, j, q, i);
    JoinFits(lv, k, j, q, i);
    JoinBelow(lv, k, j, q, i);
  }

  lemma {:induction false} JoinBelow(lv: Stack, k: nat, j: nat, q: nat, i: nat)
    requires WF(lv) && Above(lv, k, j + 1, q, i) && i > 0
    ensures Lower(Flat(Cut(lv[k + 1], q, i)), Joined(lv[k], j))
  {
    LevelPair(lv, k);
    SepsBelow(lv, k);
    LevelAsc(lv, k + 1);
    CutJoined(lv[k + 1], q, i, lv[k], j);
  }

  lemma {:induction false} CutJoined(u: Level, q: nat, i: nat, l: Level, j: nat)
    requires q < |u| && i < |u[q].inodes| && Off(u, q) + i == j + 1 < |l| == |Flat(u)|
    requires Asc(Flat(u)) && Lower(Flat(u), l)
    ensures Lower(Flat(Cut(u, q, i)), Joined(l, j))
  {
    FlatDel(u, q, i);
    LowerJoined(Flat(u), l, j);
  }

  lemma {:induction false} JoinNodesWF(lv: Stack, k: nat, j: nat, q: nat, i: nat)
    requires WF(lv) && Above(lv, k, j + 1, q, i) && i > 0
    ensures WF(JoinNodes(lv, k, j, q, i)) && Contents(JoinNodes(lv, k, j, q, i)) == Contents(lv)
  {
    var l := Joined(lv[k], j);
    CutUpper(lv, k, j + 1, q, i);
    JoinLower(lv, k, j, q, i);
    JoinedIds(lv[k], j);
    FewerIds(lv, k, l);
    ChangedWF(lv, k, l, Cut(lv[k + 1], q, i));
  }

  lemma {:induction false} FlatSame(l: Level, l': Level)
    requires |l| == |l'| && forall j :: 0 <= j < |l| ==> l[j].inodes == l'[j].inodes
    ensures Flat(l) == Flat(l')
  {
    if l != [] {
      FlatSame(l[..|l| - 1], l'[..|l| - 1]);
    }
  }

  /** Below a level with the same entries and the same bounding keys, the bounds are the same. */
  lemma {:induction false} SepsSame(lv: Stack, lv': Stack, t: nat, m: nat)
    requires t < |lv| && t < |lv'| && m < t
    requires forall n :: 0 <= n < t ==> lv'[n] == lv[n]
    requires |lv[t]| == |lv'[t]| && forall j :: 0 <= j < |lv[t]| ==> lv[t][j].inodes == lv'[t][j].inodes
    requires |Seps(lv, t)| == |Seps(lv', t)|
    requires forall j :: 0 <= j < |Seps(lv, t)| ==> Seps(lv, t)[j].key == Seps(lv', t)[j].key
    ensures Seps(lv', m) == Seps(lv, m)
    decreases t - m
  {
    if m + 1 < t {
      SepsSame(lv, lv', t, m + 1);
    } else {
      FlatSame(Fenced(lv[t], Seps(lv, t)), Fenced(lv'[t], Seps(lv', t)));
    }
  }

  /** The levels below t are in order in both trees or in neither. */
  lemma {:induction false} BelowSame(lv: Stack, lv': Stack, t: nat)
    requires WF(lv) && t < |lv| && t < |lv'|
    requires forall n :: 0 <= n < t ==> lv'[n] == lv[n]
    requires |lv[t]| == |lv'[t]| && forall j :: 0 <= j < |lv[t]| ==> lv[t][j].inodes == lv'[t][j].inodes
    requires |Seps(lv, t)| == |Seps(lv', t)|
    requires forall j :: 0 <= j < |Seps(lv, t)| ==> Seps(lv, t)[j].key == Seps(lv', t)[j].key
    ensures forall m :: 0 <= m < t ==> LevelOk(lv', m)
    ensures Contents(lv') == Contents(lv)
  {
    FlatSame(lv[t], lv'[t]);
    forall m | 0 <= m < t ensures LevelOk(lv', m) {
      LevelSame(lv, lv', t, m);
    }
  }

  lemma {:induction false} LevelSame(lv: Stack, lv': Stack, t: nat, m: nat)
    requires WF(lv) && t < |lv| && t < |lv'| && m < t
    requires forall n :: 0 <= n < t ==> lv'[n] == lv[n]
    requires |lv[t]| == |lv'[t]| && forall j :: 0 <= j < |lv[t]| ==> lv[t][j].inodes == lv'[t][j].inodes
    requires |Seps(lv, t)| == |Seps(lv', t)| && Flat(lv'[t]) == Flat(lv[t])
    requires forall j :: 0 <= j < |Seps(lv, t)| ==> Seps(lv, t)[j].key == Seps(lv', t)[j].key
    ensures LevelOk(lv', m)
  {
    assert LevelOk(lv, m);
    SepsSame(lv, lv', t, m);
    assert lv'[m] == lv[m] && Flat(lv'[m + 1]) == Flat(lv[m + 1]);
  }

  /** A root with a single child takes over the child's entries: the tree loses a level. */
  ghost function Collapsed(lv: Stack): Stack
    requires |lv| > 1 && lv[|lv| - 1] != [] && lv[|lv| - 2] != []
  {
    lv[..|lv| - 2] + [[Rec(lv[|lv| - 1][0].id, lv[|lv| - 2][0].inodes)]]
  }

  lemma {:induction false} OnlyChild(lv: Stack)
    requires WF(lv) && |lv| > 1 && |Root(lv).inodes| == 1
    ensures |lv[|lv| - 2]| == 1 && Root(lv).inodes[0].pgid == lv[|lv| - 2][0].id
    ensures |Seps(lv, |lv| - 2)| == 1 && Seps(lv, |lv| - 2)[0].key == []
  {
    var t := |lv| - 1;
    FlatOne(lv[t][0]);
    assert lv[t] == [lv[t][0]];
    SepsBelow(lv, t - 1);
    SepsAsc(lv, t - 1);
  }

  lemma {:induction false} CollapsedWF(lv: Stack)
    requires WF(lv) && |lv| > 1 && |Root(lv).inodes| == 1
    ensures |lv[|lv| - 2]| == 1 && Root(lv).inodes[0].pgid == lv[|lv| - 2][0].id
    ensures WF(Collapsed(lv)) && Contents(Collapsed(lv)) == Contents(lv)
  {
    OnlyChild(lv);
    var t, lv' := |lv| - 1, Collapsed(lv);
    BelowSame(lv, lv', t - 1);
    assert LevelOk(lv, t - 1);
    assert LevelOk(lv', t - 1);
    SameIdsOf(lv'[t - 1], lv[t]);
    forall m, n | 0 <= m < n < |lv'| ensures IdsOf(lv'[m]) !! IdsOf(lv'[n]) {
      assert IdsOf(lv[m]) !! IdsOf(lv[n]) && IdsOf(lv[m]) !! IdsOf(lv[t]);
    }
  }

  /** The root moves to another page. */
  ghost function Renamed(lv: Stack, id: Pgid): Stack
    requires |lv| > 0 && lv[|lv| - 1] != []
  {
    lv[|lv| - 1 := [Rec(id, lv[|lv| - 1][0].inodes)]]
  }

  lemma {:induction false} RenamedWF(lv: Stack, id: Pgid)
    requires WF(lv) && forall m :: 0 <= m < |lv| - 1 ==> id !in IdsOf(lv[m])
    ensures WF(Renamed(lv, id)) && Contents(Renamed(lv, id)) == Contents(lv)
  {
    var t, lv' := |lv| - 1, Renamed(lv, id);
    BelowSame(lv, lv', t);
    assert LevelOk(lv, t);
    assert LevelOk(lv', t);
    forall m, n | 0 <= m < n < |lv'| ensures IdsOf(lv'[m]) !! IdsOf(lv'[n]) {
      assert IdsOf(lv[m]) !! IdsOf(lv[n]);
    }
  }

  /** A new root above the old one, which becomes its only child. */
  ghost function Grown(lv: Stack, id: Pgid): Stack
    requires |lv| > 0 && lv[|lv| - 1] != [] && lv[|lv| - 1][0].inodes != []
  {
    lv + [[Rec(id, [Head(lv[|lv| - 1][0])])]]
  }

  lemma {:induction false} GrownWF(lv: Stack, id: Pgid)
    requires WF(lv) && Root(lv).inodes != [] && id !in Ids(lv)
    ensures WF(Grown(lv, id)) && Contents(Grown(lv, id)) == Contents(lv)
    ensures Above(Grown(lv, id), |lv| - 1, 0, 0, 0)
  {
    var t, lv' := |lv| - 1, Grown(lv, id);
    var r, u := lv[t][0], lv'[t + 1];
    FlatOne(u[0]);
    assert u[..0] == [];
    FlatOne(Fenced(u, Seps(lv', t + 1))[0]);
    assert Fenced(u, Seps(lv', t + 1)) == [Fenced(u, Seps(lv', t + 1))[0]];
    assert Seps(lv', t) == [Head(r).(key := [])];
    BelowSame(lv, lv', t);
    assert LevelOk(lv, t);
    assert LevelOk(lv', t) && LevelOk(lv', t + 1);
    forall m, n | 0 <= m < n < |lv'| ensures IdsOf(lv'[m]) !! IdsOf(lv'[n]) {
      if n == t + 1 {
        assert IdsOf(lv[m]) <= Ids(lv);
      } else {
        assert IdsOf(lv[m]) !! IdsOf(lv[n]);
      }
    }
  }

  /** Leaf j with other entries. */
  ghost function SetLeaf(lv: Stack, j: nat, xs: seq<Inode>): Stack
    requires |lv| > 0 && j < |lv[0]|
  {
    lv[0 := SetInodes(lv[0], j, xs)]
  }

  lemma {:induction false} SetLeafLevel(lv: Stack, j: nat, xs: seq<Inode>, m: nat)
    requires WF(lv) && j < |lv[0]| && Asc(xs) && |Seps(lv, 0)| == |lv[0]| && Within(Seps(lv, 0), j, xs)
    requires |lv| > 1 && j > 0 ==>
      |Flat(lv[1])| > j && forall i :: 0 <= i < |xs| ==> Le(Flat(lv[1])[j].key, xs[i].key)
    requires m < |lv|
    ensures LevelOk(SetLeaf(lv, j, xs), m)
  {
    assert LevelOk(lv, m);
    SepsAbove(lv, SetLeaf(lv, j, xs), m);
  }

  lemma {:induction false} SetLeafWF(lv: Stack, j: nat, xs: seq<Inode>)
    requires WF(lv) && j < |lv[0]| && Asc(xs) && |Seps(lv, 0)| == |lv[0]| && Within(Seps(lv, 0), j, xs)
    requires |lv| > 1 && j > 0 ==>
      |Flat(lv[1])| > j && forall i :: 0 <= i < |xs| ==> Le(Flat(lv[1])[j].key, xs[i].key)
    ensures WF(SetLeaf(lv, j, xs))
    ensures Contents(SetLeaf(lv, j, xs)) == Flat(lv[0][..j]) + xs + Flat(lv[0][j + 1..])
  {
    var lv' := SetLeaf(lv, j, xs);
    FlatSet(lv[0], j, xs);
    forall m | 0 <= m < |lv| ensures LevelOk(lv', m) {
      SetLeafLevel(lv, j, xs, m);
    }
    assert Disjoint(lv') by {
      SameIdsOf(lv'[0], lv[0]);
      forall m, n | 0 <= m < n < |lv'| ensures IdsOf(lv'[m]) !! IdsOf(lv'[n]) {
        assert IdsOf(lv[m]) !! IdsOf(lv[n]);
      }
    }
  }

  /** Node j of level k is replaced by pieces on new pages; its parent, node q of level k + 1,
      gets one entry for each piece in place of entry i. */
  ghost function SpliceNode(lv: Stack, k: nat, j: nat, q: nat, i: nat, ps: Level): Stack
    requires Above(lv, k, j, q, i) && Pieces(lv[k][j].inodes, ps)
  {
    Changed(lv, k, Spliced(lv[k], j, ps), SpliceParent(lv[k + 1], q, i, ps))
  }

  ghost function SpliceParent(u: Level, q: nat, i: nat, ps: Level): Level
    requires q < |u| && i < |u[q].inodes| && forall m :: 0 <= m < |ps| ==> ps[m].inodes != []
  {
    SetInodes(u, q, Spliced(u[q].inodes, i, Heads(ps)))
  }

  ghost predicate Fresh(lv: Stack, ps: Level)
  {
    NoDup(ps) && forall k :: 0 <= k < |lv| ==> IdsOf(ps) !! IdsOf(lv[k])
  }

  /** The separators at node j, seen from its parent: child 0 has the parent's lower bound, the
      last child the parent's upper bound. */
  lemma {:induction false} SepAt(u: Level, g: seq<Inode>, q: nat, i: nat)
    requires Filled(u) && |g| == |u| && q < |u| && i < |u[q].inodes|
    ensures var xs, j, f := u[q].inodes, Off(u, q) + i, Flat(Fenced(u, g));
            && j < |f| == |Flat(u)| && Flat(u)[j] == xs[i]
            && f[j] == (if i == 0 then xs[0].(key := g[q].key) else xs[i])
            && (i + 1 < |xs| ==> j + 1 < |f| && f[j + 1] == xs[i + 1])
            && (i + 1 == |xs| && q + 1 < |u| ==> j + 1 < |f| && f[j + 1].key == g[q + 1].key)
            && (q > 0 ==> j > 0)
  {
    FencedAt(u, g, q, i);
    if q > 0 {
      FlatSplit(u, 0);
      OffMono(u, 1, q);
    }
    if i + 1 < |u[q].inodes| {
      FencedAt(u, g, q, i + 1);
    } else if q + 1 < |u| {
      SepNext(u, g, q);
    }
  }

  lemma {:induction false} SepNext(u: Level, g: seq<Inode>, q: nat)
    requires Filled(u) && |g| == |u| && q + 1 < |u|
    ensures var j, f := Off(u, q) + |u[q].inodes|, Flat(Fenced(u, g));
            && j < |f| && f[j].key == g[q + 1].key
  {
    FlatSplit(u, q);
    FencedAt(u, g, q + 1, 0);
  }

  /** The key z of an entry of a node that lies within the separators f of its level, and above the key
      that the parents e store for it, also lies within the parent. */
  lemma {:induction false} EntryInner(u: Level, g: seq<Inode>, q: nat, i: nat, l: Level, j: nat, n: nat)
    requires Filled(u) && |g| == |u| && q < |u| && i < |u[q].inodes| && j == Off(u, q) + i && j < |l|
    requires Fits(Flat(Fenced(u, g)), l) && Lower(Flat(u), l) && n < |l[j].inodes|
    requires Asc(u[q].inodes) && Within(g, q, u[q].inodes)
    ensures var z, xs := l[j].inodes[n].key, u[q].inodes;
            && (q > 0 || i > 0 ==> Le(xs[i].key, z)) && (i + 1 < |xs| ==> Lt(z, xs[i + 1].key))
            && Le(g[q].key, z) && (q + 1 < |g| ==> Lt(z, g[q + 1].key))
  {
    SepAt(u, g, q, i);
    assert Within(Flat(Fenced(u, g)), j, l[j].inodes);
  }

  /** Where an entry of a node lies among the entries of the parent, and in the parent's bounds. */
  lemma {:induction false} EntryBounds(lv: Stack, k: nat, j: nat, q: nat, i: nat, n: nat)
    requires WF(lv) && Above(lv, k, j, q, i) && n < |lv[k][j].inodes|
    ensures var z, xs, g := lv[k][j].inodes[n].key, lv[k + 1][q].inodes, Seps(lv, k + 1);
            && (i > 0 ==> Le(xs[i].key, z)) && (i + 1 < |xs| ==> Lt(z, xs[i + 1].key))
            && |g| == |lv[k + 1]| && Le(g[q].key, z) && (q + 1 < |g| ==> Lt(z, g[q + 1].key))
            && (q > 0 && k + 2 < |lv| ==> |Flat(lv[k + 2])| > q && Le(Flat(lv[k + 2])[q].key, z))
  {
    LevelPair(lv, k);
    EntryInner(lv[k + 1], Seps(lv, k + 1), q, i, lv[k], j, n);
    if k + 2 < |lv| {
      SepsBelow(lv, k + 1);
    }
  }

  lemma {:induction false} HeadBounds(lv: Stack, k: nat, j: nat, q: nat, i: nat, ps: Level)
    requires WF(lv) && Above(lv, k, j, q, i) && Pieces(lv[k][j].inodes, ps)
    ensures var h, xs, g := Heads(ps), lv[k + 1][q].inodes, Seps(lv, k + 1);
            && Asc(h) && |g| == |lv[k + 1]|
            && (forall m :: 0 <= m < |h| ==>
              && (i > 0 ==> Le(xs[i].key, h[m].key)) && (i + 1 < |xs| ==> Lt(h[m].key, xs[i + 1].key))
              && Le(g[q].key, h[m].key) && (q + 1 < |g| ==> Lt(h[m].key, g[q + 1].key)))
            && (q > 0 && k + 2 < |lv| ==> |Flat(lv[k + 2])| > q)
            && (q > 0 && k + 2 < |lv| ==> forall m :: 0 <= m < |h| ==> Le(Flat(lv[k + 2])[q].key, h[m].key))
  {
    var h, x := Heads(ps), lv[k][j].inodes;
    assert LevelOk(lv, k);
    HeadsAsc(x, ps);
    EntryBounds(lv, k, j, q, i, 0);
    forall m | 0 <= m < |h|
      ensures var xs, g := lv[k + 1][q].inodes, Seps(lv, k + 1);
              && (i > 0 ==> Le(xs[i].key, h[m].key)) && (i + 1 < |xs| ==> Lt(h[m].key, xs[i + 1].key))
              && Le(g[q].key, h[m].key) && (q + 1 < |g| ==> Lt(h[m].key, g[q + 1].key))
              && (q > 0 && k + 2 < |lv| ==> Le(Flat(lv[k + 2])[q].key, h[m].key))
    {
      var n :| 0 <= n < |x| && x[n].key == h[m].key;
      EntryBounds(lv, k, j, q, i, n);
    }
  }

  lemma {:induction false} SpliceUpper(lv: Stack, k: nat, j: nat, q: nat, i: nat, ps: Level)
    requires WF(lv) && Above(lv, k, j, q, i) && Pieces(lv[k][j].inodes, ps)
    ensures UpperOk(lv, k, SpliceParent(lv[k + 1], q, i, ps))
  {
    var xs, h, g := lv[k + 1][q].inodes, Heads(ps), Seps(lv, k + 1);
    var ys, u := Spliced(xs, i, h), SpliceParent(lv[k + 1], q, i, ps);
    assert LevelOk(lv, k + 1);
    HeadBounds(lv, k, j, q, i, ps);
    AscSpliced(xs, i, h);
    SplicedIndex(xs, i, h);
    assert Within(g, q, ys) by {
      assert Within(g, q, xs);
    }
    assert Fits(g, u);
    assert k + 2 < |lv| ==> Lower(Flat(lv[k + 2]), u) by {
      if k + 2 < |lv| {
        var e2 := Flat(lv[k + 2]);
        assert |e2| == |u| by { SepsBelow(lv, k + 1); }
        assert q > 0 ==> forall m :: 0 <= m < |ys| ==> Le(e2[q].key, ys[m].key);
      }
    }
  }

  /** The separators of the pieces: the first keeps the bound of the node when that came from the
      parent's own bound. */
  ghost function Bounds(lv: Stack, k: nat, q: nat, i: nat, ps: Level): (r: seq<Inode>)
    requires k + 1 < |lv| && q < |Seps(lv, k + 1)| && ps != []
    requires forall m :: 0 <= m < |ps| ==> ps[m].inodes != []
    ensures |r| == |ps|
  {
    var h := Heads(ps);
    if i > 0 then h else [h[0].(key := Seps(lv, k + 1)[q].key)] + h[1..]
  }

  lemma {:induction false} FencedSplice(u: Level, g: seq<Inode>, q: nat, i: nat, h: seq<Inode>)
    requires |g| == |u| && q < |u| && i < |u[q].inodes| && h != []
    ensures Off(u, q) + i < |Flat(Fenced(u, g))|
    ensures Flat(Fenced(SetInodes(u, q, Spliced(u[q].inodes, i, h)), g))
         == Spliced(Flat(Fenced(u, g)), Off(u, q) + i, if i > 0 then h else [h[0].(key := g[q].key)] + h[1..])
  {
    FencedOff(u, g, q);
    FencedSet(u, g, q, Spliced(u[q].inodes, i, h));
    FenceSpliced(u[q].inodes, i, h, g[q].key);
    FlatReplace(Fenced(u, g), q, i, if i > 0 then h else [h[0].(key := g[q].key)] + h[1..]);
  }

  lemma {:induction false} FenceSpliced(xs: seq<Inode>, i: nat, h: seq<Inode>, key: Key)
    requires i < |xs| && h != []
    ensures FenceNode(Spliced(xs, i, h), key)
         == Spliced(FenceNode(xs, key), i, if i > 0 then h else [h[0].(key := key)] + h[1..])
  {
    if i == 0 {
      assert Spliced(xs, 0, h) == [h[0]] + (h[1..] + xs[1..]);
    }
  }

  /** Bounded by their own heads, pieces do not change, except perhaps the first. */
  lemma {:induction false} FencedHeads(ps: Level, h: seq<Inode>)
    requires ps != [] && |h| == |ps| && forall m :: 0 <= m < |ps| ==> ps[m].inodes != []
    requires forall m :: 0 < m < |ps| ==> h[m] == Heads(ps)[m]
    ensures Fenced(ps, h)[0].inodes == FenceNode(ps[0].inodes, h[0].key) && Fenced(ps, h)[1..] == ps[1..]
  {
    forall m | 0 < m < |ps| ensures Fenced(ps, h)[m] == ps[m] {
      assert h[m].key == ps[m].inodes[0].key;
      assert FenceNode(ps[m].inodes, h[m].key) == ps[m].inodes;
    }
  }

  lemma {:induction false} FenceFront(y: seq<Inode>, t: seq<Inode>, key: Key)
    requires y != []
    ensures FenceNode(y, key) + t == [(y + t)[0].(key := key)] + (y + t)[1..]
  {
    assert (y + t)[1..] == y[1..] + t;
  }

  /** The pieces of x bounded by their separators: x with only its first key lowered. */
  lemma {:induction false} FencedPieces(x: seq<Inode>, ps: Level, h: seq<Inode>)
    requires Pieces(x, ps) && |h| == |ps| && forall m :: 0 < m < |ps| ==> h[m] == Heads(ps)[m]
    ensures x != [] && Flat(Fenced(ps, h)) == [x[0].(key := h[0].key)] + x[1..]
  {
    FirstPiece(ps);
    FencedHeads(ps, h);
    FirstPiece(Fenced(ps, h));
    FenceFront(ps[0].inodes, Flat(ps[1..]), h[0].key);
  }

  lemma {:induction false} FirstPiece(ps: Level)
    requires ps != []
    ensures Flat(ps) == ps[0].inodes + Flat(ps[1..])
  {
    FlatSplit(ps, 0);
    assert ps[..0] == [];
    assert [] + ps[0].inodes == ps[0].inodes;
  }

  lemma {:induction false} FencedSpliced(l: Level, f: seq<Inode>, j: nat, ps: Level, h: seq<Inode>)
    requires |f| == |l| && j < |l| && Pieces(l[j].inodes, ps) && |h| == |ps|
    requires forall m :: 0 < m < |ps| ==> h[m] == Heads(ps)[m]
    requires Le(f[j].key, h[0].key)
    ensures Raised(Flat(Fenced(l, f)), Flat(Fenced(Spliced(l, j, ps), Spliced(f, j, h))))
  {
    var a, b := Fenced(l, f), Fenced(ps, h);
    FencedParts(l, f, j, ps, h);
    FencedPieces(l[j].inodes, ps, h);
    FlatSplit(a, j);
    FlatSplice(a, j, b);
    FenceHigher(l[j].inodes, f[j].key, h[0].key);
    RaisedMiddle(Flat(a[..j]), a[j].inodes, Flat(b), Flat(a[j + 1..]));
  }

  lemma {:induction false} FenceHigher(x: seq<Inode>, low: Key, high: Key)
    requires x != [] && Le(low, high)
    ensures Raised(FenceNode(x, low), [x[0].(key := high)] + x[1..])
  {
  }

  lemma {:induction false} FencedParts(l: Level, f: seq<Inode>, j: nat, ps: Level, h: seq<Inode>)
    requires |f| == |l| && j < |l| && |h| == |ps|
    ensures Fenced(Spliced(l, j, ps), Spliced(f, j, h)) == Spliced(Fenced(l, f), j, Fenced(ps, h))
  {
    var c, d := Fenced(Spliced(l, j, ps), Spliced(f, j, h)), Spliced(Fenced(l, f), j, Fenced(ps, h));
    SplicedIndex(l, j, ps);
    SplicedIndex(f, j, h);
    SplicedIndex(Fenced(l, f), j, Fenced(ps, h));
    forall m | 0 <= m < |c| ensures c[m] == d[m] {
    }
  }

  /** The separators of the level after the splice: those of the pieces in place of the node's. */
  lemma {:induction false} SpliceSeps(lv: Stack, k: nat, j: nat, q: nat, i: nat, ps: Level)
    requires WF(lv) && Above(lv, k, j, q, i) && Pieces(lv[k][j].inodes, ps)
    ensures q < |Seps(lv, k + 1)| && j < |Seps(lv, k)|
    ensures Flat(Fenced(SpliceParent(lv[k + 1], q, i, ps), Seps(lv, k + 1)))
         == Spliced(Seps(lv, k), j, Bounds(lv, k, q, i, ps))
  {
    SepsDef(lv, k);
    FencedSplice(lv[k + 1], Seps(lv, k + 1), q, i, Heads(ps));
  }

  lemma {:induction false} SpliceFits(lv: Stack, k: nat, j: nat, q: nat, i: nat, ps: Level)
    requires WF(lv) && Above(lv, k, j, q, i) && Pieces(lv[k][j].inodes, ps)
    ensures q < |Seps(lv, k + 1)| && j < |Seps(lv, k)|
    ensures Fits(Spliced(Seps(lv, k), j, Bounds(lv, k, q, i, ps)), Spliced(lv[k], j, ps))
      && AllAsc(Spliced(lv[k], j, ps))
  {
    BoundsOk(lv, k, j, q, i, ps);
    SepsAsc(lv, k);
    assert LevelOk(lv, k);
    FitsSpliced(Seps(lv, k), lv[k], j, ps, Bounds(lv, k, q, i, ps));
  }

  lemma {:induction false} SpliceBelow(lv: Stack, k: nat, j: nat, q: nat, i: nat, ps: Level)
    requires WF(lv) && Above(lv, k, j, q, i) && Pieces(lv[k][j].inodes, ps) && k > 0
    ensures q < |Seps(lv, k + 1)| && j < |Seps(lv, k)|
    ensures var f', l := Spliced(Seps(lv, k), j, Bounds(lv, k, q, i, ps)), Spliced(lv[k], j, ps);
            Filled(l) && Raised(Flat(Fenced(lv[k], Seps(lv, k))), Flat(Fenced(l, f')))
  {
    assert LevelOk(lv, k);
    BoundsOk(lv, k, j, q, i, ps);
    FencedSpliced(lv[k], Seps(lv, k), j, ps, Bounds(lv, k, q, i, ps));
    SplicedIndex(lv[k], j, ps);
  }

  lemma {:induction false} SpliceLower(lv: Stack, k: nat, j: nat, q: nat, i: nat, ps: Level)
    requires WF(lv) && Above(lv, k, j, q, i) && Pieces(lv[k][j].inodes, ps) && NoDup(Spliced(lv[k], j, ps))
    ensures LowerOk(lv, k, Spliced(lv[k], j, ps), SpliceParent(lv[k + 1], q, i, ps))
  {
    var l, u := Spliced(lv[k], j, ps), SpliceParent(lv[k + 1], q, i, ps);
    assert Lower(Flat(u), l) by {
      assert LevelOk(lv, k);
      SepsBelow(lv, k);
      FlatReplace(lv[k + 1], q, i, Heads(ps));
      LowerSpliced(Flat(lv[k + 1]), lv[k], j, ps);
    }
    SpliceSeps(lv, k, j, q, i, ps);
    SpliceFits(lv, k, j, q, i, ps);
    FlatSpliced(lv[k], j, ps);
    if k > 0 {
      SpliceBelow(lv, k, j, q, i, ps);
    }
  }

  lemma {:induction false} BoundsOk(lv: Stack, k: nat, j: nat, q: nat, i: nat, ps: Level)
    requires WF(lv) && Above(lv, k, j, q, i) && Pieces(lv[k][j].inodes, ps)
    ensures q < |Seps(lv, k + 1)| && j < |Seps(lv, k)|
    ensures var h := Bounds(lv, k, q, i, ps);
            && h[0].pgid == ps[0].id && h[1..] == Heads(ps)[1..]
            && (forall m :: 0 < m < |ps| ==> h[m] == Heads(ps)[m])
            && Le(Seps(lv, k)[j].key, h[0].key) && Le(h[0].key, Heads(ps)[0].key)
  {
    var x, f := lv[k][j].inodes, Seps(lv, k);
    assert LevelOk(lv, k) && LevelOk(lv, k + 1);
    HeadsAsc(x, ps);
    EntryBounds(lv, k, j, q, i, 0);
    assert Within(f, j, x);
    FencedAt(lv[k + 1], Seps(lv, k + 1), q, i);
  }

  lemma {:induction false} SplicedNoDup(l: Level, j: nat, ps: Level)
    requires j < |l| && NoDup(l) && NoDup(ps) && IdsOf(ps) !! IdsOf(l)
    ensures NoDup(Spliced(l, j, ps)) && IdsOf(Spliced(l, j, ps)) <= IdsOf(l) + IdsOf(ps)
  {
    var s := Spliced(l, j, ps);
    SplicedIndex(l, j, ps);
    forall m, n | 0 <= m < |ps| && 0 <= n < |l| ensures ps[m].id != l[n].id {
      assert ps[m] in ps && l[n] in l;
      assert ps[m].id in IdsOf(ps) && l[n].id in IdsOf(l);
    }
    forall r | r in s ensures r in l || r in ps {
    }
  }

  lemma {:induction false} SplicedIds(lv: Stack, k: nat, j: nat, ps: Level)
    requires WF(lv) && k < |lv| && j < |lv[k]| && Fresh(lv, ps)
    ensures NoDup(Spliced(lv[k], j, ps))
    ensures forall m :: 0 <= m < |lv| && m != k ==> IdsOf(Spliced(lv[k], j, ps)) !! IdsOf(lv[m])
  {
    assert LevelOk(lv, k);
    SplicedNoDup(lv[k], j, ps);
    forall m | 0 <= m < |lv| && m != k ensures IdsOf(Spliced(lv[k], j, ps)) !! IdsOf(lv[m]) {
      assert if m < k then IdsOf(lv[m]) !! IdsOf(lv[k]) else IdsOf(lv[k]) !! IdsOf(lv[m]);
    }
  }

  lemma {:induction false} SpliceNodeWF(lv: Stack, k: nat, j: nat, q: nat, i: nat, ps: Level)
    requires WF(lv) && Above(lv, k, j, q, i) && Pieces(lv[k][j].inodes, ps) && Fresh(lv, ps)
    ensures WF(SpliceNode(lv, k, j, q, i, ps)) && Contents(SpliceNode(lv, k, j, q, i, ps)) == Contents(lv)
  {
    SplicedIds(lv, k, j, ps);
    SpliceUpper(lv, k, j, q, i, ps);
    SpliceLower(lv, k, j, q, i, ps);
    ChangedWF(lv, k, Spliced(lv[k], j, ps), SpliceParent(lv[k + 1], q, i, ps));
  }
}
