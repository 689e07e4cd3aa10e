/** Where a key belongs in a tree, and where an entry stands in key order: what searching and
    walking the levels one node at a time computes. */
module Paths {
  import opened Bytes
  import opened Pgids
  import opened Levels
  import opened Tree
  import opened Arena

  /** A search for key reaches node q of level m. */
  ghost predicate Belongs(lv: Stack, m: nat, q: nat, key: Key)
    requires m < |lv|
  {
    var g := Seps(lv, m);
    q < |lv[m]| && |g| == |lv[m]| && Le(g[q].key, key) && (q + 1 < |g| ==> Lt(key, g[q + 1].key))
  }

  /** The child a search for key descends to: the one with that key, or the last one before it. */
  ghost function ChildIndex(xs: seq<Inode>, key: Key): nat
  {
    var s := Search(xs, key);
    if Found(xs, key) || s == 0 then s else s - 1
  }

  lemma {:induction false} RootBelongs(lv: Stack, key: Key)
    requires WF(lv)
    ensures Belongs(lv, |lv| - 1, 0, key)
  {
    assert LevelOk(lv, |lv| - 1);
  }

  lemma {:induction false} ChildIndexIs(xs: seq<Inode>, key: Key)
    requires Asc(xs) && xs != []
    ensures var i := ChildIndex(xs, key);
            i < |xs| && (i > 0 ==> Le(xs[i].key, key)) && (i + 1 < |xs| ==> Lt(key, xs[i + 1].key))
  {
    var s := Search(xs, key);
    if Found(xs, key) {
      assert s + 1 < |xs| ==> Lt(xs[s].key, xs[s + 1].key);
    } else if s > 0 {
      assert Lt(xs[s - 1].key, key);
      assert s < |xs| ==> xs[s].key != key && !Lt(xs[s].key, key);
      if s < |xs| {
        RankInjective(xs[s].key, key);
      }
    } else {
      assert 1 < |xs| ==> Lt(xs[0].key, xs[1].key);
    }
  }

  /** Descending keeps the key with the node. */
  lemma {:induction false} Descend(lv: Stack, m: nat, q: nat, key: Key) returns (j: nat)
    requires WF(lv) && 0 < m < |lv| && Belongs(lv, m, q, key)
    ensures var i := ChildIndex(lv[m][q].inodes, key);
            i < |lv[m][q].inodes| && Above(lv, m - 1, j, q, i) && lv[m - 1][j].id == lv[m][q].inodes[i].pgid
    ensures Belongs(lv, m - 1, j, key)
  {
    var xs, i := lv[m][q].inodes, ChildIndex(lv[m][q].inodes, key);
    assert LevelOk(lv, m);
    ChildIndexIs(xs, key);
    j := PlaceEntry(lv, m, q, i);
    SepAt(lv[m], Seps(lv, m), q, i);
    SepsBelow(lv, m - 1);
    DescendBound(lv, m, q, i, j, key);
  }

  /** Mentioning Glance() is what unfolds ChildFor; elsewhere it stays a single fact. */
  ghost predicate Glance(x: int) { true }

  ghost predicate ChildFor(xs: seq<Inode>, key: Key, i: nat)
  {
    forall x {:trigger Glance(x)} :: Glance(x) ==> i == ChildIndex(xs, key)
  }

  lemma {:induction false} DescendTo(lv: Stack, m: nat, q: nat, key: Key, i: nat)
    requires WF(lv) && 0 < m < |lv| && Belongs(lv, m, q, key) && ChildFor(lv[m][q].inodes, key, i)
    ensures i < |lv[m][q].inodes| && Belongs(lv, m - 1, Off(lv[m], q) + i, key)
  {
    assert Glance(0);
    var j := Descend(lv, m, q, key);
  }

  lemma {:induction false} DescendBound(lv: Stack, m: nat, q: nat, i: nat, j: nat, key: Key)
    requires WF(lv) && 0 < m < |lv| && Belongs(lv, m, q, key) && Above(lv, m - 1, j, q, i)
    requires i + 1 < |lv[m][q].inodes| ==> Lt(key, lv[m][q].inodes[i + 1].key)
    requires i > 0 ==> Le(lv[m][q].inodes[i].key, key)
    ensures Belongs(lv, m - 1, j, key)
  {
    assert LevelOk(lv, m) && LevelOk(lv, m - 1);
    SepAt(lv[m], Seps(lv, m), q, i);
    SepsBelow(lv, m - 1);
    if i + 1 == |lv[m][q].inodes| && q + 1 == |lv[m]| {
      LastEntry(lv[m], q);
    }
  }

  lemma {:induction false} LastEntry(l: Level, q: nat)
    requires q + 1 == |l|
    ensures Off(l, q) + |l[q].inodes| == |Flat(l)|
  {
    FlatSplit(l, q);
    assert l[..q + 1] == l;
  }

  /** Searching the leaf a key belongs to is searching the whole bucket. */
  lemma {:induction false} LeafSearch(lv: Stack, j: nat, key: Key)
    requires WF(lv) && Belongs(lv, 0, j, key)
    ensures Search(Contents(lv), key) == Off(lv[0], j) + Search(lv[0][j].inodes, key)
    ensures Off(lv[0], j) + |lv[0][j].inodes| <= |Contents(lv)|
    ensures Found(Contents(lv), key) <==> Found(lv[0][j].inodes, key)
  {
    var l, f, x, s := lv[0], Contents(lv), lv[0][j].inodes, Search(lv[0][j].inodes, key);
    var p := Off(l, j) + s;
    FlatSplit(l, j);
    forall t | 0 <= t < p ensures Lt(f[t].key, key) {
      BeforeLeaf(lv, j, key, t);
    }
    if p < |f| {
      FromLeaf(lv, j, key, p);
      if s < |x| {
        FlatAt(l, j, s);
      } else {
        AfterLeaf(lv, j, key, p);
      }
    }
    FirstIs(f, key, p);
  }

  lemma {:induction false} FirstIs(xs: seq<Inode>, key: Key, p: nat)
    requires p <= |xs| && (p < |xs| ==> !Lt(xs[p].key, key)) && forall m :: 0 <= m < p ==> Lt(xs[m].key, key)
    ensures Search(xs, key) == p
  {
  }

  /** Entry t of the bucket comes before where key belongs in leaf j. */
  lemma {:induction false} BeforeLeaf(lv: Stack, j: nat, key: Key, t: nat)
    requires WF(lv) && Belongs(lv, 0, j, key) && t < Off(lv[0], j) + Search(lv[0][j].inodes, key)
    ensures t < |Contents(lv)| && Lt(Contents(lv)[t].key, key)
  {
    var l := lv[0];
    FlatSplit(l, j);
    var q, i := Locate(l, t);
    assert LevelOk(lv, 0);
    SepsAsc(lv, 0);
    if q < j {
      assert Within(Seps(lv, 0), q, l[q].inodes);
      assert q + 1 < j ==> Lt(Seps(lv, 0)[q + 1].key, Seps(lv, 0)[j].key);
    } else if q > j {
      OffMono(l, j + 1, q);
    }
  }

  lemma {:induction false} FromLeaf(lv: Stack, j: nat, key: Key, t: nat)
    requires WF(lv) && Belongs(lv, 0, j, key) && t < |Contents(lv)|
    requires t == Off(lv[0], j) + Search(lv[0][j].inodes, key)
    ensures !Lt(Contents(lv)[t].key, key)
  {
    var l := lv[0];
    if Search(l[j].inodes, key) < |l[j].inodes| {
      FlatAt(l, j, Search(l[j].inodes, key));
    } else {
      AfterLeaf(lv, j, key, t);
    }
  }

  /** Entries after leaf j come after the key. */
  lemma {:induction false} AfterLeaf(lv: Stack, j: nat, key: Key, t: nat)
    requires WF(lv) && Belongs(lv, 0, j, key) && t < |Contents(lv)| && Off(lv[0], j) + |lv[0][j].inodes| <= t
    ensures Lt(key, Contents(lv)[t].key) && Contents(lv)[t].key != key
  {
    var l := lv[0];
    FlatSplit(l, j);
    var q, i := Locate(l, t);
    assert q > j by {
      if q < j {
        FlatSplit(l, q);
        OffMono(l, q + 1, j);
      }
    }
    assert LevelOk(lv, 0);
    SepsAsc(lv, 0);
    assert Within(Seps(lv, 0), q, l[q].inodes);
    assert j + 1 < q ==> Lt(Seps(lv, 0)[j + 1].key, Seps(lv, 0)[q].key);
  }

  /** Putting a key where it belongs in its leaf puts it where it belongs in the bucket. */
  lemma {:induction false} PutContents(lv: Stack, j: nat, x: Inode)
    requires WF(lv) && Belongs(lv, 0, j, x.key)
    ensures Flat(lv[0][..j]) + PutInode(lv[0][j].inodes, x.key, x) + Flat(lv[0][j + 1..])
      == PutInode(Contents(lv), x.key, x)
  {
    var a, y, b := Flat(lv[0][..j]), lv[0][j].inodes, Flat(lv[0][j + 1..]);
    LeafSearch(lv, j, x.key);
    FlatSplit(lv[0], j);
    assert Contents(lv) == a + y + b;
    PutMiddle(a, y, b, Search(y, x.key), x);
  }

  lemma {:induction false} PutMiddle(a: seq<Inode>, y: seq<Inode>, b: seq<Inode>, s: nat, x: Inode)
    requires s <= |y|
    ensures s < |y| ==> (a + y + b)[|a| + s := x] == a + y[s := x] + b
    ensures (a + y + b)[..|a| + s] + [x] + (a + y + b)[|a| + s..] == a + (y[..s] + [x] + y[s..]) + b
  {
    assert (a + y + b)[..|a| + s] == a + y[..s];
    assert (a + y + b)[|a| + s..] == y[s..] + b;
  }

  lemma {:induction false} DelContents(lv: Stack, j: nat, key: Key)
    requires WF(lv) && Belongs(lv, 0, j, key)
    ensures Flat(lv[0][..j]) + DelInode(lv[0][j].inodes, key) + Flat(lv[0][j + 1..]) == DelInode(Contents(lv), key)
  {
    LeafSearch(lv, j, key);
    FlatSplit(lv[0], j);
    if Found(lv[0][j].inodes, key) {
      MiddleDel(Flat(lv[0][..j]), lv[0][j].inodes, Flat(lv[0][j + 1..]), Search(lv[0][j].inodes, key));
    }
  }

  // ---- putting keys below branches that have not changed ----

  /** Node q starts with the key that bounds it from below. */
  ghost predicate TightAt(lv: Stack, m: nat, q: nat)
    requires m < |lv| && q < |lv[m]|
  {
    |Seps(lv, m)| == |lv[m]| && (lv[m][q].inodes != [] ==> Seps(lv, m)[q].key == lv[m][q].inodes[0].key)
  }

  /** So do all branches but the leftmost of each level, until they are merged or split. */
  ghost predicate Tight(lv: Stack)
  {
    forall m, q {:trigger TightAt(lv, m, q)} :: 0 < m < |lv| && 0 < q < |lv[m]| ==> TightAt(lv, m, q)
  }

  /** Which entry of the level above stands for node j. */
  lemma {:induction false} ParentOf(lv: Stack, m: nat, j: nat) returns (q: nat, i: nat)
    requires WF(lv) && m + 1 < |lv| && j < |lv[m]|
    ensures Above(lv, m, j, q, i) && (j > 0 && i == 0 ==> q > 0)
    ensures j < |Flat(lv[m + 1])| && Flat(lv[m + 1])[j] == lv[m + 1][q].inodes[i] && |Seps(lv, m + 1)| == |lv[m + 1]|
    ensures j < |Seps(lv, m)| == |lv[m]|
    ensures Seps(lv, m)[j].key == if i == 0 then Seps(lv, m + 1)[q].key else lv[m + 1][q].inodes[i].key
  {
    SepsBelow(lv, m);
    q, i := Locate(lv[m + 1], j);
    assert LevelOk(lv, m + 1);
    SepAt(lv[m + 1], Seps(lv, m + 1), q, i);
    assert lv[m + 1][..0] == [];
  }

  /** On disk every entry of a branch above another branch has the first key of its child. */
  ghost predicate FirstKeys(lv: Stack)
  {
    forall m, q {:trigger lv[m][q]} :: 0 < m && m + 1 < |lv| && 0 <= q < |lv[m]| && q < |Flat(lv[m + 1])| ==>
      lv[m][q].inodes != [] && Flat(lv[m + 1])[q].key == lv[m][q].inodes[0].key
  }

  lemma {:induction false} FirstTight(lv: Stack, m: nat, q: nat)
    requires WF(lv) && FirstKeys(lv) && 0 < m < |lv| && 0 < q < |lv[m]|
    ensures TightAt(lv, m, q)
    decreases |lv| - m
  {
    assert LevelOk(lv, m);
    if m + 1 < |lv| {
      var p, i := ParentOf(lv, m, q);
      SepsBelow(lv, m);
      assert Flat(lv[m + 1])[q].key == lv[m][q].inodes[0].key;
      if i == 0 {
        FirstTight(lv, m + 1, p);
      }
    }
  }

  /** In a tight tree a key that is bounded by its leaf also comes after the key stored for the leaf. */
  lemma {:induction false} StoredBelow(lv: Stack, j: nat, key: Key)
    requires WF(lv) && Tight(lv) && |lv| > 1 && 0 < j < |lv[0]| && j < |Seps(lv, 0)| && Le(Seps(lv, 0)[j].key, key)
    ensures |Flat(lv[1])| > j && Le(Flat(lv[1])[j].key, key)
  {
    var q, i := ParentOf(lv, 0, j);
    if i == 0 {
      assert TightAt(lv, 1, q);
    }
  }

  lemma {:induction false} LeafFacts(lv: Stack, j: nat)
    requires WF(lv) && j < |lv[0]|
    ensures Asc(lv[0][j].inodes) && |Seps(lv, 0)| == |lv[0]| && Within(Seps(lv, 0), j, lv[0][j].inodes)
  {
    assert LevelOk(lv, 0);
  }

  /** Entries that the leaf bounds may go into it. */
  lemma {:induction false} LeafFits(lv: Stack, j: nat, xs: seq<Inode>)
    requires WF(lv) && Tight(lv) && j < |lv[0]| == |Seps(lv, 0)| && Within(Seps(lv, 0), j, xs)
    ensures |lv| > 1 && j > 0 ==>
      |Flat(lv[1])| > j && forall i :: 0 <= i < |xs| ==> Le(Flat(lv[1])[j].key, xs[i].key)
  {
    if |lv| > 1 && j > 0 {
      SepsBelow(lv, 0);
      forall i | 0 <= i < |xs| ensures Le(Flat(lv[1])[j].key, xs[i].key) {
        StoredBelow(lv, j, xs[i].key);
      }
    }
  }

  /** A key can go into the leaf it belongs to. */
  lemma {:induction false} PutFits(lv: Stack, j: nat, xs: seq<Inode>, x: Inode)
    requires WF(lv) && Tight(lv) && Belongs(lv, 0, j, x.key) && xs == PutInode(lv[0][j].inodes, x.key, x)
    ensures Asc(xs) && |Seps(lv, 0)| == |lv[0]| && Within(Seps(lv, 0), j, xs)
    ensures |lv| > 1 && j > 0 ==>
      |Flat(lv[1])| > j && forall i :: 0 <= i < |xs| ==> Le(Flat(lv[1])[j].key, xs[i].key)
  {
    LeafFacts(lv, j);
    PutAsc(lv[0][j].inodes, x);
    LeafFits(lv, j, xs);
  }

  lemma {:induction false} PutAsc(y: seq<Inode>, x: Inode)
    requires Asc(y)
    ensures Asc(PutInode(y, x.key, x))
    ensures forall i :: 0 <= i < |PutInode(y, x.key, x)| ==>
      PutInode(y, x.key, x)[i] == x || PutInode(y, x.key, x)[i] in y
  {
    var s, z := Search(y, x.key), PutInode(y, x.key, x);
    if s < |y| {
      RankInjective(y[s].key, x.key);
    }
    if Found(y, x.key) {
      assert forall i :: 0 <= i < |z| && i != s ==> z[i] == y[i];
    } else {
      assert forall i :: 0 <= i < |z| ==> z[i] == (if i < s then y[i] else if i == s then x else y[i - 1]);
    }
  }

  lemma {:induction false} DelFits(lv: Stack, j: nat, xs: seq<Inode>, key: Key)
    requires WF(lv) && Tight(lv) && Belongs(lv, 0, j, key) && xs == DelInode(lv[0][j].inodes, key)
    ensures Asc(xs) && |Seps(lv, 0)| == |lv[0]| && Within(Seps(lv, 0), j, xs)
    ensures |lv| > 1 && j > 0 ==>
      |Flat(lv[1])| > j && forall i :: 0 <= i < |xs| ==> Le(Flat(lv[1])[j].key, xs[i].key)
  {
    LeafFacts(lv, j);
    DelWithin(Seps(lv, 0), j, lv[0][j].inodes, key);
    LeafFits(lv, j, xs);
  }

  lemma {:induction false} DelWithin(e: seq<Inode>, j: nat, y: seq<Inode>, key: Key)
    requires Asc(y) && j < |e| && Within(e, j, y)
    ensures Asc(DelInode(y, key)) && Within(e, j, DelInode(y, key))
  {
    if Found(y, key) {
      RemovedIndex(y, Search(y, key));
    }
  }

  lemma {:induction false} SetLeafTight(lv: Stack, j: nat, xs: seq<Inode>)
    requires Tight(lv) && |lv| > 0 && j < |lv[0]|
    ensures Tight(SetLeaf(lv, j, xs))
  {
    var lv' := SetLeaf(lv, j, xs);
    forall m, q | 0 < m < |lv'| && 0 < q < |lv'[m]| ensures TightAt(lv', m, q) {
      assert TightAt(lv, m, q);
      SepsAbove(lv, lv', m);
    }
  }
}
