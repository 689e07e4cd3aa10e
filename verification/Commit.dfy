/** Spilling a bucket at commit: each cached node, children first, is split and written to new pages,
    its old page is freed, and its parent's entries follow. Nodes are values here, named by the page
    they were read from. */
module Commits {
  import opened Options
  import opened Bytes
  import opened Pgids
  import opened Levels
  import opened Tree
  import opened Arena
  import opened Steps
  import opened Buckets
  import Splits
  import opened Spills
  import opened Accounts

  ghost function Plain(ps: seq<seq<Inode>>, ids: seq<Pgid>): (r: Level)
    requires |ids| == |ps|
    ensures |r| == |ps| && forall m :: 0 <= m < |ps| ==> r[m] == Rec(ids[m], ps[m])
  {
    seq(|ps|, m requires 0 <= m < |ps| => Rec(ids[m], ps[m]))
  }

  lemma {:induction false} PlainFlat(ps: seq<seq<Inode>>, ids: seq<Pgid>)
    requires |ids| == |ps|
    ensures Flat(Plain(ps, ids)) == Splits.Concat(ps)
  {
    if ps != [] {
      var n := |ps| - 1;
      PlainFlat(ps[..n], ids[..n]);
      assert Plain(ps, ids)[..n] == Plain(ps[..n], ids[..n]);
    }
  }

  /** The entries of the parent once the first t pieces of the node at entry i are written. */
  ghost function Partly(xs: seq<Inode>, i: nat, h: seq<Inode>, t: nat): seq<Inode>
    requires i < |xs| && t <= |h|
  {
    xs[..i] + h[..t] + (if t == 0 then xs[i..] else xs[i + 1..])
  }

  /** Where the heads of the pieces go among the entries of the parent. */
  ghost predicate Slot(xs: seq<Inode>, i: nat, key: Key, h: seq<Inode>)
  {
    && Asc(xs) && i < |xs| && xs[i].key == key && Asc(h)
    && forall m :: 0 <= m < |h| ==>
      (i > 0 ==> Lt(xs[i - 1].key, h[m].key)) && (i + 1 < |xs| ==> Lt(h[m].key, xs[i + 1].key))
  }

  /** Putting the head of piece t under its key: the first takes the place of the node's old entry,
      the others are inserted after it. */
  lemma {:induction false} PutPiece(xs: seq<Inode>, i: nat, key: Key, h: seq<Inode>, t: nat)
    requires Slot(xs, i, key, h) && t < |h|
    ensures PutInode(Partly(xs, i, h, t), if t == 0 then key else h[t].key, h[t]) == Partly(xs, i, h, t + 1)
  {
    if t == 0 {
      assert Partly(xs, i, h, 0) == xs;
      SearchAt(xs, i);
      assert h[..1] == [h[0]];
    } else {
      FirstAfter(xs, i, key, h, t);
      InsertPiece(xs[..i], h, t, xs[i + 1..]);
    }
  }

  lemma {:induction false} InsertPiece(a: seq<Inode>, h: seq<Inode>, t: nat, b: seq<Inode>)
    requires t < |h|
    ensures var y := a + h[..t] + b; y[..|a| + t] + [h[t]] + y[|a| + t..] == a + h[..t + 1] + b
  {
    var y := a + h[..t] + b;
    assert y[..|a| + t] == a + h[..t] && y[|a| + t..] == b;
    assert h[..t + 1] == h[..t] + [h[t]];
  }

  lemma {:induction false} PartlyAt(xs: seq<Inode>, i: nat, h: seq<Inode>, t: nat)
    requires i < |xs| && t <= |h|
    ensures var y := Partly(xs, i, h, t);
            && |y| == (if t == 0 then |xs| else |xs| + t - 1)
            && forall m :: 0 <= m < |y| ==>
              y[m] == if m < i then xs[m] else if m < i + t then h[m - i] else if t == 0 then xs[m] else xs[m - t + 1]
  {
  }

  lemma {:induction false} FirstAfter(xs: seq<Inode>, i: nat, key: Key, h: seq<Inode>, t: nat)
    requires Slot(xs, i, key, h) && 0 < t < |h|
    ensures Search(Partly(xs, i, h, t), h[t].key) == i + t && !Found(Partly(xs, i, h, t), h[t].key)
  {
    var y := Partly(xs, i, h, t);
    PartlyAt(xs, i, h, t);
    forall m | 0 <= m < i + t ensures Lt(y[m].key, h[t].key) {
      assert m < i - 1 ==> Lt(xs[m].key, xs[i - 1].key);
    }
    if i + t < |y| {
      assert y[i + t] == xs[i + 1];
    }
    SearchIs(y, h[t].key, i + t);
  }

  /** Entries before, at and after the place of the node are apart, so all of them ascend. */
  lemma {:induction false} PartlyAsc(xs: seq<Inode>, i: nat, key: Key, h: seq<Inode>, t: nat)
    requires Slot(xs, i, key, h) && t <= |h|
    ensures Asc(Partly(xs, i, h, t))
  {
    var y := Partly(xs, i, h, t);
    PartlyAt(xs, i, h, t);
    forall m, n | 0 <= m < n < |y| ensures Lt(y[m].key, y[n].key) {
      assert m < i - 1 ==> Lt(xs[m].key, xs[i - 1].key);
      assert n > i + t && t > 0 ==> Lt(xs[i + 1].key, xs[n - t + 1].key);
    }
  }

  /** The same, for pieces that have no pages yet. */
  ghost predicate PieceSlot(xs: seq<Inode>, i: nat, key: Key, ps: seq<seq<Inode>>)
  {
    && Asc(xs) && i < |xs| && xs[i].key == key && (forall m :: 0 <= m < |ps| ==> ps[m] != [])
    && (forall m :: 0 <= m < |ps| ==>
      (i > 0 ==> Lt(xs[i - 1].key, ps[m][0].key)) && (i + 1 < |xs| ==> Lt(ps[m][0].key, xs[i + 1].key)))
    && forall m, n :: 0 <= m < n < |ps| ==> Lt(ps[m][0].key, ps[n][0].key)
  }

  ghost predicate NoneEmpty(ps: seq<seq<Inode>>)
  {
    forall m :: 0 <= m < |ps| ==> ps[m] != []
  }

  /** The parent's entries for the first pieces, on the given pages. */
  ghost function HeadsOf(ps: seq<seq<Inode>>, ids: seq<Pgid>): (r: seq<Inode>)
    requires |ids| <= |ps| && NoneEmpty(ps)
    ensures |r| == |ids| && forall m :: 0 <= m < |ids| ==> r[m] == Inode(0, ids[m], ps[m][0].key, [])
  {
    seq(|ids|, m requires 0 <= m < |ids| => Inode(0, ids[m], ps[m][0].key, []))
  }

  lemma {:induction false} HeadsOfPlain(ps: seq<seq<Inode>>, ids: seq<Pgid>)
    requires |ids| == |ps| && NoneEmpty(ps)
    ensures forall m :: 0 <= m < |ps| ==> Plain(ps, ids)[m].inodes != []
    ensures Heads(Plain(ps, ids)) == HeadsOf(ps, ids)
  {
  }

  /** The parent's entries once pieces are on the given pages. */
  ghost function Followed(xs: seq<Inode>, i: nat, ps: seq<seq<Inode>>, ids: seq<Pgid>): seq<Inode>
    requires i < |xs| && |ids| <= |ps| && NoneEmpty(ps)
  {
    Partly(xs, i, HeadsOf(ps, ids), |ids|)
  }

  lemma {:induction false} FollowedEnds(xs: seq<Inode>, i: nat, ps: seq<seq<Inode>>, ids: seq<Pgid>)
    requires i < |xs| && |ids| == |ps| && NoneEmpty(ps) && ps != []
    ensures Followed(xs, i, ps, []) == xs
    ensures Followed(xs, i, ps, ids) == Spliced(xs, i, HeadsOf(ps, ids))
  {
    assert HeadsOf(ps, ids)[..|ids|] == HeadsOf(ps, ids);
  }

  /** node.put of the next piece's entry in the parent. */
  method PutNext(ys: seq<Inode>, under: Key, q: Pgid, ghost xs: seq<Inode>, ghost i: nat, ghost key: Key,
                 ps: seq<seq<Inode>>, ghost ids: seq<Pgid>, t: nat)
    returns (r: seq<Inode>)
    requires PieceSlot(xs, i, key, ps) && NoneEmpty(ps) && t == |ids| < |ps| && ys == Followed(xs, i, ps, ids)
    requires under == if t == 0 then key else ps[t][0].key
    ensures r == Followed(xs, i, ps, ids + [q])
  {
    ghost var h := HeadsOf(ps, ids + [q]);
    assert h[..t] == HeadsOf(ps, ids)[..t];
    assert Slot(xs, i, key, h);
    PartlyAsc(xs, i, key, h, t);
    PutPiece(xs, i, key, h, t);
    r := PutEntry(ys, under, Inode(0, q, ps[t][0].key, []));
  }

  /** node.put on the entries of a node. */
  method PutEntry(xs: seq<Inode>, oldKey: Key, x: Inode) returns (r: seq<Inode>)
    requires Asc(xs)
    ensures r == PutInode(xs, oldKey, x)
  {
    var index := LowerBound(xs, oldKey);
    if index < |xs| && xs[index].key == oldKey {
      r := xs[index := x];
    } else {
      r := xs[..index] + [x] + xs[index..];
    }
  }

  /** What is written after the first t pieces. */
  ghost predicate WrittenSoFar(pages: Pages, pages': Pages, ps: seq<seq<Inode>>, ids: seq<Pgid>, t: nat, leaf: bool)
    requires t == |ids| <= |ps|
  {
    Written(pages, pages', Plain(ps[..t], ids), leaf)
  }

  lemma {:induction false} WrittenNext(pages: Pages, pages': Pages, ps: seq<seq<Inode>>, ids: seq<Pgid>, t: nat,
                                       leaf: bool, p: Pgid)
    requires t == |ids| < |ps| && WrittenSoFar(pages, pages', ps, ids, t, leaf) && p !in ids
    ensures WrittenSoFar(pages, pages'[p := Page(leaf, ps[t])], ps, ids + [p], t + 1, leaf)
  {
    var a, b := Plain(ps[..t], ids), Plain(ps[..t + 1], ids + [p]);
    forall m | 0 <= m < t ensures b[m] == a[m] {
      assert a[m].id == ids[m] && ids[m] in ids;
    }
    forall id | id !in IdsOf(b) ensures id != p && id !in IdsOf(a) {
      assert b[t] in b;
      assert forall m :: 0 <= m < t ==> b[m] in b;
    }
  }

  lemma {:induction false} WrittenUntouched(pages: Pages, pages': Pages, ps: seq<seq<Inode>>, ids: seq<Pgid>,
                                            leaf: bool, used: set<Pgid>)
    requires |ids| == |ps| && Written(pages, pages', Plain(ps, ids), leaf) && Elems(ids) !! used
    ensures Untouched(pages, pages', used)
  {
    forall r | r in Plain(ps, ids) ensures r.id in Elems(ids) {
      var m :| 0 <= m < |ids| && Plain(ps, ids)[m] == r;
      assert ids[m] in Elems(ids);
    }
  }

  lemma {:induction false} WrittenFit(pages: Pages, pages': Pages, ps: seq<seq<Inode>>, ids: seq<Pgid>, leaf: bool,
                                      pageSize: nat)
    requires |ids| == |ps| && Written(pages, pages', Plain(ps, ids), leaf) && AllOnePage(ps, pageSize)
    ensures FitNew(pages, pages', pageSize)
  {
    forall id | id in pages'
      ensures (id in pages && pages'[id] == pages[id]) || Splits.OnePage(pages'[id].inodes, pageSize)
    {
      if r :| r in Plain(ps, ids) && r.id == id {
        var m :| 0 <= m < |ps| && Plain(ps, ids)[m] == r;
        assert pages'[id] == Page(leaf, ps[m]);
      }
    }
  }

  ghost predicate NewIds(ids: seq<Pgid>, used: set<Pgid>)
  {
    NoRepeat(ids) && forall x :: x in ids ==> x >= 2 && x !in used
  }

  lemma {:induction false} NewIdsNext(ids: seq<Pgid>, q: Pgid, used: set<Pgid>)
    requires NewIds(ids, used) && q >= 2 && q !in used && NoRepeat(ids + [q])
    ensures NewIds(ids + [q], used) && Elems(ids + [q]) == Elems(ids) + {q}
  {
  }

  /** Some id is above all of a finite set. */
  lemma {:induction false} Bound(s: set<Pgid>) returns (b: Pgid)
    ensures forall x :: x in s ==> x < b
    decreases s
  {
    if s == {} {
      b := 0;
    } else {
      var x :| x in s;
      b := Bound(s - {x});
      assert forall y :: y in s ==> y == x || y in s - {x};
      if b <= x {
        b := x + 1;
      }
    }
  }

  // ---- the steps of spilling, seen from outside ----

  /** The entries of a node, cut into pieces none of which is empty; those of a branch have two or more. */
  ghost predicate CutUp(xs: seq<Inode>, ps: seq<seq<Inode>>, leaf: bool)
  {
    ps != [] && Splits.Concat(ps) == xs && NoneEmpty(ps) && (!leaf ==> forall m :: 0 <= m < |ps| ==> |ps[m]| >= 2)
  }

  ghost predicate AllOnePage(ps: seq<seq<Inode>>, pageSize: nat)
  {
    forall m :: 0 <= m < |ps| ==> Splits.OnePage(ps[m], pageSize)
  }

  lemma {:induction false} SplitCuts(xs: seq<Inode>, ps: seq<seq<Inode>>, pageSize: nat, room: real, leaf: bool)
    requires Splits.SplitInto(xs, ps, pageSize, room) && room <= pageSize as real
    requires xs != [] && (!leaf ==> |xs| >= 2)
    ensures CutUp(xs, ps, leaf) && AllOnePage(ps, pageSize)
  {
    Splits.SplitFacts(xs, ps, pageSize, room);
  }

  ghost function Zeros(n: nat): (r: seq<Pgid>)
    ensures |r| == n
  {
    seq(n, _ => 0)
  }

  lemma {:induction false} PlainPieces(ps: seq<seq<Inode>>, ids: seq<Pgid>, xs: seq<Inode>, leaf: bool, k: nat)
    requires CutUp(xs, ps, leaf) && |ids| == |ps| && (leaf <==> k == 0)
    ensures Pieces(xs, Plain(ps, ids)) && Thick(Plain(ps, ids), k)
  {
    PlainFlat(ps, ids);
  }

  /** Where a node without cached children is, and that its pieces fit in its place. */
  lemma {:induction false} SpillPlace(a: Nodes, pages: Pages, lv: Stack, n: Pgid, k: nat, ps: seq<seq<Inode>>)
    returns (j: nat, q: nat, i: nat)
    requires InStep(a, pages, lv) && n in a && a[n].parent.Some? && At(lv, k, n) && CutUp(a[n].inodes, ps, a[n].isLeaf)
    ensures a[n].parent.value in a && a[n].parent.value != n && Tied(a, pages, lv)
    ensures Above(lv, k, j, q, i) && lv[k][j].id == n && lv[k + 1][q].id == a[n].parent.value
    ensures lv[k + 1][q].inodes == a[a[n].parent.value].inodes && lv[k + 1][q].inodes[i].pgid == n
    ensures lv[k][j].inodes == a[n].inodes && (a[n].isLeaf <==> k == 0) && At(lv, k + 1, a[n].parent.value)
    ensures PieceSlot(a[a[n].parent.value].inodes, i, a[n].key, ps) && n in Ids(lv) && n > 0
  {
    Unfold(a, pages, lv);
    assert LinkOk(a, Root(lv).id, n);
    var x :| 0 <= x < |lv[k]| && lv[k][x].id == n;
    var k';
    k', j, q, i := PlaceChild(a, pages, lv, n);
    Unique(lv, k, x, k', j);
    Differ(lv, k, j, k + 1, q);
    IdsIn(lv, k, j);
    SlotFor(lv, k, j, q, i, ps);
  }

  lemma {:induction false} SlotFor(lv: Stack, k: nat, j: nat, q: nat, i: nat, ps: seq<seq<Inode>>)
    requires WF(lv) && Above(lv, k, j, q, i) && CutUp(lv[k][j].inodes, ps, k == 0)
    ensures PieceSlot(lv[k + 1][q].inodes, i, lv[k + 1][q].inodes[i].key, ps)
  {
    var xs, l := lv[k + 1][q].inodes, Plain(ps, Zeros(|ps|));
    PlainPieces(ps, Zeros(|ps|), lv[k][j].inodes, k == 0, k);
    HeadBounds(lv, k, j, q, i, l);
    assert Asc(xs) by { assert LevelOk(lv, k + 1); }
    assert forall m :: 0 <= m < |ps| ==> Heads(l)[m].key == ps[m][0].key;
  }

  lemma {:induction false} NewLevel(lv: Stack, ps: seq<seq<Inode>>, ids: seq<Pgid>, used: set<Pgid>)
    requires |ids| == |ps| && NewIds(ids, used) && Ids(lv) <= used
    ensures Fresh(lv, Plain(ps, ids)) && 0 !in IdsOf(Plain(ps, ids)) && IdsOf(Plain(ps, ids)) == Elems(ids)
  {
    var l := Plain(ps, ids);
    forall m | 0 <= m < |ids| ensures ids[m] in IdsOf(l) && ids[m] in ids {
      assert l[m] in l;
    }
    forall k | 0 <= k < |lv| ensures IdsOf(l) !! IdsOf(lv[k]) {
      assert IdsOf(lv[k]) <= Ids(lv);
    }
  }

  /** A node was written: it is not cached any more, and everything else is in step. */
  lemma {:induction false} SpillDone(a: Nodes, pages: Pages, pages': Pages, lv: Stack, n: Pgid, p: Pgid,
                                     k: nat, j: nat, q: nat, i: nat, ps: seq<seq<Inode>>, ids: seq<Pgid>,
                                     used: set<Pgid>)
    returns (lv': Stack)
    requires InStep(a, pages, lv) && n in a && p in a && n != p && a[n].children == [] && Balanced(lv)
    requires Above(lv, k, j, q, i) && lv[k][j].id == n && lv[k + 1][q].id == p && lv[k + 1][q].inodes[i].pgid == n
    requires lv[k + 1][q].inodes == a[p].inodes && lv[k][j].inodes == a[n].inodes && (a[n].isLeaf <==> k == 0)
    requires CutUp(a[n].inodes, ps, a[n].isLeaf) && |ids| == |ps| && NewIds(ids, used) && Ids(lv) <= used
    requires Written(pages, pages', Plain(ps, ids), a[n].isLeaf)
    ensures InStep(Unload(a, n, p, Spliced(a[p].inodes, i, HeadsOf(ps, ids))), pages', lv') && Balanced(lv')
    ensures Entries(lv') == Entries(lv) && RootId(lv') == RootId(lv) && |lv'| == |lv|
    ensures Ids(lv') == Ids(lv) - {n} + Elems(ids) && forall m, x :: m > k && At(lv, m, x) ==> At(lv', m, x)
  {
    Unfold(a, pages, lv);
    var l := Plain(ps, ids);
    PlainPieces(ps, ids, a[n].inodes, a[n].isLeaf, k);
    HeadsOfPlain(ps, ids);
    NewLevel(lv, ps, ids, used);
    NoChildren(a, n);
    SpliceTied(a, pages, pages', lv, n, p, k, j, q, i, l);
    SpliceBalanced(lv, k, j, q, i, l);
    lv' := SpliceNode(lv, k, j, q, i, l);
    StillAt(lv, k, j, q, i, l);
  }

  lemma {:induction false} NoChildren(a: Nodes, n: Pgid)
    requires Listed(a) && n in a && a[n].children == []
    ensures forall id :: id in a ==> a[id].parent != Some(n)
  {
    assert ListOk(a, n);
  }

  lemma {:induction false} StillAt(lv: Stack, k: nat, j: nat, q: nat, i: nat, l: Level)
    requires Above(lv, k, j, q, i) && Pieces(lv[k][j].inodes, l)
    ensures forall m, x :: m > k && At(lv, m, x) ==> At(SpliceNode(lv, k, j, q, i, l), m, x)
  {
    var lv' := SpliceNode(lv, k, j, q, i, l);
    forall m, x | m > k && At(lv, m, x) ensures At(lv', m, x) {
      var o :| 0 <= o < |lv[m]| && lv[m][o].id == x;
      assert lv'[m][o].id == x;
    }
  }

  /** A cached child is one level below. */
  lemma {:induction false} ChildLevel(a: Nodes, pages: Pages, lv: Stack, n: Pgid, k: nat, c: Pgid)
    requires InStep(a, pages, lv) && n in a && At(lv, k, n) && c in a[n].children
    ensures k > 0 && c in a && a[c].parent == Some(n) && At(lv, k - 1, c)
  {
    Unfold(a, pages, lv);
    assert ListOk(a, n) && LinkOk(a, Root(lv).id, c);
    var x :| 0 <= x < |lv[k]| && lv[k][x].id == n;
    var k', j, q, i := PlaceChild(a, pages, lv, c);
    Unique(lv, k, x, k' + 1, q);
  }

  /** How full a cached node is, and whether it has a parent. */
  lemma {:induction false} NodeFull(a: Nodes, pages: Pages, lv: Stack, n: Pgid, k: nat)
    requires InStep(a, pages, lv) && Balanced(lv) && n in a && At(lv, k, n)
    ensures (k > 0 ==> |a[n].inodes| >= 2) && (|lv| > 1 ==> a[n].inodes != []) && (a[n].isLeaf <==> k == 0)
    ensures a[n].parent.None? <==> k == |lv| - 1
    ensures n in Ids(lv)
  {
    NodeFacts(a, pages, lv, n, k);
    Unfold(a, pages, lv);
    var x :| 0 <= x < |lv[k]| && lv[k][x].id == n;
    ShownIs(a, pages, lv, k, x, n);
    IdsIn(lv, k, x);
  }

  // ---- the root ----

  /** Only the root is cached, and holds xs. */
  ghost predicate TopOnly(a: Nodes, root: Pgid, xs: seq<Inode>, leaf: bool)
  {
    a.Keys == {root} && a[root].inodes == xs && a[root].isLeaf == leaf
  }

  ghost function TopNode(g: Pgid, ys: seq<Inode>): Nodes
  {
    map[g := NodeState(false, false, [], None, [], ys)]
  }

  lemma {:induction false} TopFacts(a: Nodes, pages: Pages, lv: Stack, xs: seq<Inode>, leaf: bool)
    requires InStep(a, pages, lv) && Balanced(lv) && TopOnly(a, RootId(lv), xs, leaf)
    ensures OnlyRoot(a, pages, lv) && WF(lv) && Root(lv).id == RootId(lv) && Root(lv).inodes == xs
    ensures leaf == (|lv| == 1) && (!leaf ==> |xs| >= 2) && Asc(xs)
  {
    Unfold(a, pages, lv);
    ShownIs(a, pages, lv, |lv| - 1, 0, RootId(lv));
    assert LevelOk(lv, |lv| - 1);
  }

  /** The pieces of a root. Only a root that is an empty leaf gives an empty piece. */
  ghost predicate TopCutUp(xs: seq<Inode>, ps: seq<seq<Inode>>, leaf: bool)
  {
    ps != [] && Splits.Concat(ps) == xs
      && (|ps| > 1 ==> CutUp(xs, ps, leaf) && forall m :: 0 <= m < |ps| ==> |ps[m]| >= 2)
  }

  /** The first keys of several pieces ascend. */
  ghost predicate HeadsRise(ps: seq<seq<Inode>>)
  {
    |ps| > 1 ==> NoneEmpty(ps) && forall m, n :: 0 <= m < n < |ps| ==> Lt(ps[m][0].key, ps[n][0].key)
  }

  lemma {:induction false} TopCut(xs: seq<Inode>, ps: seq<seq<Inode>>, pageSize: nat, room: real, leaf: bool)
    requires Splits.SplitInto(xs, ps, pageSize, room) && room <= pageSize as real && Asc(xs)
    ensures TopCutUp(xs, ps, leaf) && HeadsRise(ps) && (|ps| == 1 ==> ps[0] == xs) && AllOnePage(ps, pageSize)
  {
    Splits.SplitFacts(xs, ps, pageSize, room);
    if |ps| > 1 {
      var l := Plain(ps, Zeros(|ps|));
      PlainFlat(ps, Zeros(|ps|));
      HeadsAsc(xs, l);
      assert forall m :: 0 <= m < |ps| ==> Heads(l)[m].key == ps[m][0].key;
    }
  }

  /** A new root has fewer entries than the root that was split. */
  lemma {:induction false} FewerHeads(xs: seq<Inode>, ps: seq<seq<Inode>>)
    requires Splits.Concat(ps) == xs && forall m :: 0 <= m < |ps| ==> |ps[m]| >= 2
    ensures 2 * |ps| <= |xs|
    decreases |ps|
  {
    if ps != [] {
      FewerHeads(Splits.Concat(ps[..|ps| - 1]), ps[..|ps| - 1]);
    }
  }

  /** node.put of the last entry so far of a new root. */
  method PutLast(ys: seq<Inode>, under: Key, q: Pgid, ps: seq<seq<Inode>>, ghost ids: seq<Pgid>) returns (r: seq<Inode>)
    requires HeadsRise(ps) && 1 < |ps| && |ids| < |ps| && ys == HeadsOf(ps, ids)
    requires |ys| > 0 ==> under == ps[|ys|][0].key
    ensures r == HeadsOf(ps, ids + [q])
  {
    SearchIs(ys, under, |ys|);
    ghost var x := Inode(0, q, ps[|ys|][0].key, []);
    assert HeadsOf(ps, ids + [q]) == ys + [x];
    assert ys[..|ys|] + [x] + ys[|ys|..] == ys + [x];
    r := PutEntry(ys, under, Inode(0, q, ps[|ys|][0].key, []));
  }

  /** The root was written whole. */
  lemma {:induction false} TopWhole(a: Nodes, pages: Pages, pages': Pages, lv: Stack, id: Pgid, xs: seq<Inode>,
                                    leaf: bool, used: set<Pgid>)
    returns (lv': Stack)
    requires InStep(a, pages, lv) && Balanced(lv) && TopOnly(a, RootId(lv), xs, leaf)
    requires Ids(lv) - {RootId(lv)} <= used && id !in used && id != 0 && Written(pages, pages', Plain([xs], [id]), leaf)
    ensures InStep(map[], pages', lv') && Balanced(lv') && Entries(lv') == Entries(lv) && |lv'| == |lv|
    ensures RootId(lv') == id && Ids(lv') == Ids(lv) - {RootId(lv)} + {id}
  {
    var g := Bound(Ids(lv) + {id, 0});
    var lv2 := TopRename(a, pages, lv, xs, leaf, g);
    TopFacts(map[g := a[RootId(lv)]], pages, lv2, xs, leaf);
    assert Plain([xs], [id]) == Whole(lv2, id);
    RenameTied(map[g := a[RootId(lv)]], pages, pages', lv2, id);
    RenamedBalanced(lv2, id);
    lv' := Renamed(lv2, id);
  }

  /** The root was split, and there is a new root, still without a page. */
  lemma {:induction false} TopSplit(a: Nodes, pages: Pages, pages': Pages, lv: Stack, ps: seq<seq<Inode>>,
                                    ids: seq<Pgid>, xs: seq<Inode>, leaf: bool, used: set<Pgid>, used': set<Pgid>)
    returns (lv': Stack, g: Pgid)
    requires InStep(a, pages, lv) && Balanced(lv) && TopOnly(a, RootId(lv), xs, leaf) && TopCutUp(xs, ps, leaf)
      && |ps| > 1
    requires |ids| == |ps| && NewIds(ids, used) && Ids(lv) - {RootId(lv)} <= used
      && Written(pages, pages', Plain(ps, ids), leaf)
    ensures NoneEmpty(ps) && InStep(TopNode(g, HeadsOf(ps, ids)), pages', lv') && Balanced(lv')
    ensures RootId(lv') == g && Entries(lv') == Entries(lv) && |lv'| == |lv| + 1 && g !in used' && g !in Ids(lv)
      && g !in used
    ensures Elems(ids) !! used
    ensures Ids(lv') == Ids(lv) - {RootId(lv)} + Elems(ids) + {g}
  {
    var b := NewNames(Ids(lv), Elems(ids), used, used');
    g := b + 2;
    var lv2 := TopRename(a, pages, lv, xs, leaf, b);
    TopNamed(map[b := a[RootId(lv)]], pages, pages', lv2, ps, ids, xs, leaf, used, b, g);
    lv' := SplitRoot(lv2, Plain(ps, ids), g);
  }

  lemma {:induction false} TopNamed(a: Nodes, pages: Pages, pages': Pages, lv: Stack, ps: seq<seq<Inode>>,
                                    ids: seq<Pgid>, xs: seq<Inode>, leaf: bool, used: set<Pgid>, b: Pgid, g: Pgid)
    requires InStep(a, pages, lv) && Balanced(lv) && |lv| > 0 && RootId(lv) == b && TopOnly(a, b, xs, leaf)
    requires CutUp(xs, ps, leaf) && |ids| == |ps| > 1 && Written(pages, pages', Plain(ps, ids), leaf)
    requires NewIds(ids, used) && b !in Elems(ids) && Ids(lv) <= used + {b}
    requires g !in Ids(lv) + Elems(ids) + {0} && b + 1 !in Ids(lv) + Elems(ids) && g == b + 2
    ensures NoneEmpty(ps) && Elems(ids) !! used
    ensures InStep(TopNode(g, HeadsOf(ps, ids)), pages', SplitRoot(lv, Plain(ps, ids), g))
    ensures Balanced(SplitRoot(lv, Plain(ps, ids), g)) && RootId(SplitRoot(lv, Plain(ps, ids), g)) == g
    ensures Entries(SplitRoot(lv, Plain(ps, ids), g)) == Entries(lv)
    ensures Ids(SplitRoot(lv, Plain(ps, ids), g)) == Ids(lv) - {b} + Elems(ids) + {g}
  {
    TopFacts(a, pages, lv, xs, leaf);
    NewLevel(lv, ps, ids, used + {b});
    TopUnder(a, pages, pages', lv, ps, ids, xs, leaf, b, g);
  }

  lemma {:induction false} TopUnder(a: Nodes, pages: Pages, pages': Pages, lv: Stack, ps: seq<seq<Inode>>,
                                    ids: seq<Pgid>, xs: seq<Inode>, leaf: bool, b: Pgid, g: Pgid)
    requires OnlyRoot(a, pages, lv) && Root(lv).id == b && Root(lv).inodes == xs && leaf == (|lv| == 1) && Balanced(lv)
    requires CutUp(xs, ps, leaf) && |ids| == |ps| > 1 && Written(pages, pages', Plain(ps, ids), leaf)
    requires Fresh(lv, Plain(ps, ids)) && 0 !in IdsOf(Plain(ps, ids)) && IdsOf(Plain(ps, ids)) == Elems(ids)
    requires g !in Ids(lv) + Elems(ids) + {0} && b + 1 !in Ids(lv) + Elems(ids) && g == b + 2
    ensures InStep(TopNode(g, HeadsOf(ps, ids)), pages', SplitRoot(lv, Plain(ps, ids), g))
    ensures Balanced(SplitRoot(lv, Plain(ps, ids), g)) && RootId(SplitRoot(lv, Plain(ps, ids), g)) == g
    ensures Entries(SplitRoot(lv, Plain(ps, ids), g)) == Entries(lv)
    ensures Ids(SplitRoot(lv, Plain(ps, ids), g)) == Ids(lv) - {b} + Elems(ids) + {g}
  {
    PlainPieces(ps, ids, xs, leaf, |lv| - 1);
    HeadsOfPlain(ps, ids);
    SplitRootTied(a, pages, pages', lv, Plain(ps, ids), g, b + 1);
    SplitRootBalanced(lv, Plain(ps, ids), g);
  }

  lemma {:induction false} NewNames(s: set<Pgid>, t: set<Pgid>, u: set<Pgid>, v: set<Pgid>) returns (b: Pgid)
    ensures b > 0 && b !in s && b !in t && b !in u && b !in v
    ensures b + 1 !in s && b + 1 !in t && b + 2 !in s && b + 2 !in t && b + 2 !in u && b + 2 !in v
  {
    b := Bound(s + t + u + v + {0});
  }

  /** The root of the tree under another name. */
  lemma {:induction false} TopRename(a: Nodes, pages: Pages, lv: Stack, xs: seq<Inode>, leaf: bool, b: Pgid)
    returns (lv2: Stack)
    requires InStep(a, pages, lv) && Balanced(lv) && TopOnly(a, RootId(lv), xs, leaf) && b !in Ids(lv) && b != 0
    ensures InStep(map[b := a[RootId(lv)]], pages, lv2) && Balanced(lv2) && Entries(lv2) == Entries(lv)
    ensures |lv2| == |lv| > 0 && RootId(lv2) == b && Ids(lv2) == Ids(lv) - {RootId(lv)} + {b}
  {
    TopFacts(a, pages, lv, xs, leaf);
    AnyName(a, pages, lv, b);
    RenamedBalanced(lv, b);
    lv2 := Renamed(lv, b);
  }

  lemma {:induction false} RootAt(a: Nodes, pages: Pages, lv: Stack)
    requires InStep(a, pages, lv)
    ensures |lv| > 0 && At(lv, |lv| - 1, RootId(lv))
  {
    Unfold(a, pages, lv);
    assert lv[|lv| - 1][0].id == RootId(lv);
  }

  /** Nothing is cached below a root without cached children. */
  lemma {:induction false} NoneBelow(a: Nodes, pages: Pages, lv: Stack, id: Pgid, k: nat)
    requires Tied(a, pages, lv) && Root(lv).id in a && a[Root(lv).id].children == [] && id in a && id != Root(lv).id
    requires At(lv, k, id)
    ensures false
    decreases |lv| - k
  {
    var j :| 0 <= j < |lv[k]| && lv[k][j].id == id;
    var k', j', q, i := PlaceChild(a, pages, lv, id);
    Unique(lv, k, j, k', j');
    assert ListOk(a, Root(lv).id);
    NoneBelow(a, pages, lv, a[id].parent.value, k + 1);
  }

  lemma {:induction false} RootLeft(a: Nodes, pages: Pages, lv: Stack)
    requires InStep(a, pages, lv) && RootId(lv) in a && a[RootId(lv)].children == []
    ensures TopOnly(a, RootId(lv), a[RootId(lv)].inodes, a[RootId(lv)].isLeaf) && RootId(lv) in Ids(lv)
  {
    Unfold(a, pages, lv);
    IdsIn(lv, |lv| - 1, 0);
    forall id | id in a ensures id == RootId(lv) {
      if id != RootId(lv) {
        var k, j := Place(a, pages, lv, id);
        NoneBelow(a, pages, lv, id, k);
      }
    }
  }

  lemma {:induction false} RootUncached(a: Nodes, pages: Pages, lv: Stack)
    requires InStep(a, pages, lv) && RootId(lv) !in a
    ensures a == map[] && OnPages(pages, lv)
  {
    Unfold(a, pages, lv);
    forall id | id in a ensures false {
      var k, j := Place(a, pages, lv, id);
      NoneCached(a, pages, lv, id, k);
    }
    AllOnPages(pages, lv);
  }

  /** Every node of the tree is on its page, and the key of every entry of a branch is the first key of
      its child. */
  ghost predicate OnPages(pages: Pages, lv: Stack)
  {
    && WF(lv)
    && (forall m, q {:trigger lv[m][q]} :: 0 <= m < |lv| && 0 <= q < |lv[m]| ==>
      lv[m][q].id in pages && pages[lv[m][q].id] == Page(m == 0, lv[m][q].inodes))
    && (forall m, q, i {:trigger lv[m][q].inodes[i]} ::
      0 < m < |lv| && 0 <= q < |lv[m]| && 0 <= i < |lv[m][q].inodes| ==>
      var c := lv[m][q].inodes[i].pgid;
      c in pages && pages[c].inodes != [] && pages[c].inodes[0].key == lv[m][q].inodes[i].key)
  }

  lemma {:induction false} AllOnPages(pages: Pages, lv: Stack)
    requires InStep(map[], pages, lv)
    ensures OnPages(pages, lv)
  {
    Unfold(map[], pages, lv);
    forall m, q | 0 <= m < |lv| && 0 <= q < |lv[m]|
      ensures lv[m][q].id in pages && pages[lv[m][q].id] == Page(m == 0, lv[m][q].inodes)
    {
      assert ShownAt(map[], pages, lv, m, q);
    }
    forall m, q, i | 0 < m < |lv| && 0 <= q < |lv[m]| && 0 <= i < |lv[m][q].inodes|
      ensures var c := lv[m][q].inodes[i].pgid;
              c in pages && pages[c].inodes != [] && pages[c].inodes[0].key == lv[m][q].inodes[i].key
    {
      assert StrictAt(map[], pages, lv, m, q);
      assert EntryStrict(map[], pages, lv[m][q].inodes[i]);
    }
  }

  lemma {:induction false} WrittenOn(pages: Pages, pages': Pages, ps: seq<seq<Inode>>, ids: seq<Pgid>, leaf: bool)
    requires |ids| == |ps| && Written(pages, pages', Plain(ps, ids), leaf)
    ensures OnFile(pages', ps, ids, leaf)
  {
    forall m | 0 <= m < |ps| ensures ids[m] in pages' && pages'[ids[m]] == Page(leaf, ps[m]) {
      assert Plain(ps, ids)[m] in Plain(ps, ids);
    }
  }

  /** What becomes of the pages when the pieces of a node are written in place of the pages in gone. */
  lemma {:induction false} WrittenMoved(b: Books, b': Books, gone: set<Pgid>, ps: seq<seq<Inode>>, ids: seq<Pgid>,
                                        leaf: bool, pageSize: nat)
    requires pageSize > 0 && InOrder(b) && gone <= b.tree && 0 in b.used && |ids| == |ps| && NewIds(ids, b.used)
    requires AllOnePage(ps, pageSize) && Written(b.pages, b'.pages, Plain(ps, ids), leaf)
    requires b'.tree == b.tree - gone + Elems(ids) && b'.used == b.used + RunsOf(ps, ids, pageSize)
    requires b'.freed == b.freed + gone && Elems(ids) <= b'.used
    ensures Moved(b, b', gone, pageSize) && InOrder(b') && OnFile(b'.pages, ps, ids, leaf)
  {
    WrittenUntouched(b.pages, b'.pages, ps, ids, leaf, b.used);
    WrittenFit(b.pages, b'.pages, ps, ids, leaf, pageSize);
    WrittenOn(b.pages, b'.pages, ps, ids, leaf);
    PiecesMoved(b, b', gone, ps, ids, leaf, pageSize);
  }

  /** Cached nodes are nodes of the tree. */
  lemma {:induction false} CachedIn(a: Nodes, pages: Pages, lv: Stack)
    requires InStep(a, pages, lv)
    ensures a.Keys <= Ids(lv)
  {
    Unfold(a, pages, lv);
    forall id | id in a ensures id in Ids(lv) {
      var k, j := Place(a, pages, lv, id);
      IdsIn(lv, k, j);
    }
  }

  class Spiller {
    const pageSize: nat
    const fillPercent: real
    var root: Pgid
    var nodes: Nodes          // the cached nodes that are not spilled yet
    var pages: Pages
    var used: set<Pgid>       // what the allocator may not hand out: pages in use or freed, and the meta pages
    var freed: set<Pgid>
    ghost var levels: Stack

    constructor (pageSize: nat, fillPercent: real, root: Pgid, nodes: Nodes, pages: Pages, used: set<Pgid>,
                 freed: set<Pgid>, ghost levels: Stack)
      requires pageSize > 0 && root == RootId(levels) && InStep(nodes, pages, levels) && Balanced(levels)
      requires Ids(levels) <= used && freed <= used && {0, 1} <= used && Ids(levels) !! freed && 0 !in freed
      ensures Valid() && this.nodes == nodes && this.levels == levels && this.freed == freed && this.used == used
      ensures this.pages == pages && this.pageSize == pageSize && this.fillPercent == fillPercent
    {
      this.root := root;
      this.pageSize := pageSize;
      this.fillPercent := fillPercent;
      this.nodes := nodes;
      this.pages := pages;
      this.used := used;
      this.freed := freed;
      this.levels := levels;
    }

    ghost predicate Valid()
      reads this
    {
      && pageSize > 0 && InStep(nodes, pages, levels) && Balanced(levels)
      && Ids(levels) <= used && freed <= used && {0, 1} <= used && Ids(levels) !! freed && 0 !in freed
      && root == RootId(levels)
    }

    /** The pages, as far as the tree goes; 0 stands for none. */
    ghost function Account(): Books
      reads this
    {
      Books(Ids(levels) - {0}, used, freed, pages)
    }

    /** The same while the root is on page pgid, or on none. */
    ghost function TopAccount(pgid: Pgid): Books
      reads this
    {
      Books(Ids(levels) - {RootId(levels)} + {pgid} - {0}, used, freed, pages)
    }

    /** The contents of the tree stayed. Exactly the pages of the nodes that left the cache were freed; all
        pages that were taken belong to nodes that were written, and no page in use was written to. */
    twostate predicate Kept()
      requires pageSize > 0
      reads this
    {
      && Entries(levels) == old(Entries(levels))
      && Moved(old(Account()), Account(), old(nodes.Keys) - nodes.Keys - {0}, pageSize)
    }

    /** tx.allocate: any run of pages that are not in use. */
    method Allocate(count: nat) returns (p: Pgid)
      requires count > 0 && {0, 1} <= used
      modifies `used
      ensures p >= 2 && Run(p, count) !! old(used) && used == old(used) + Run(p, count)
    {
      ghost var b := Bound(used);
      assert b >= 2 && Run(b, count) !! used;
      p :| p >= 2 && Run(p, count) !! used;
      used := used + Run(p, count);
    }

    /** A page for a node, and room for it there: size / pageSize + 1 pages hold it. */
    method WriteNode(xs: seq<Inode>, leaf: bool) returns (p: Pgid, count: nat)
      requires pageSize > 0 && {0, 1} <= used
      modifies `used, `pages
      ensures p >= 2 && p !in old(used) && old(used) + {p} <= used && used == old(used) + Run(p, count)
      ensures count == Splits.SizeOf(xs) / pageSize + 1 && Splits.SizeOf(xs) <= count * pageSize
      ensures used == old(used) + RunOf(p, xs, pageSize)
      ensures pages == old(pages)[p := Page(leaf, xs)]
    {
      var size := NodeSize(leaf, xs);
      count := size / pageSize + 1;
      assert size < count * pageSize by {
        assert size == (size / pageSize) * pageSize + size % pageSize;
        assert count * pageSize == (size / pageSize) * pageSize + pageSize;
      }
      p := Allocate(count);
      assert p in Run(p, count);
      PageCountIs(xs, pageSize);
      pages := pages[p := Page(leaf, xs)];
    }

    /** The loop of spill over the pieces of node n: the first piece frees the old page of the node; each
        gets a page and an entry in the parent p, under its first key. */
    method WritePieces(n: Pgid, p: Pgid, ps: seq<seq<Inode>>, ghost i: nat) returns (ids: seq<Pgid>)
      requires pageSize > 0 && {0, 1} <= used && n in nodes && p in nodes && n != p && n > 0
      requires ps != [] && PieceSlot(nodes[p].inodes, i, nodes[n].key, ps) && NoneEmpty(ps)
      modifies `nodes, `pages, `used, `freed
      ensures |ids| == |ps| && NewIds(ids, old(used)) && old(used) + Elems(ids) <= used && Elems(ids) !! old(used)
      ensures used == old(used) + RunsOf(ps, ids, pageSize)
      ensures freed == old(freed) + {n} && Written(old(pages), pages, Plain(ps, ids), old(nodes)[n].isLeaf)
      ensures i < |old(nodes)[p].inodes|
      ensures nodes == old(nodes)[p := old(nodes)[p].(inodes := Spliced(old(nodes)[p].inodes, i, HeadsOf(ps, ids)))]
    {
      ids := [];
      ghost var was, on, taken := nodes, pages, used;
      FollowedEnds(nodes[p].inodes, i, ps, seq(|ps|, _ => 0));
      if n > 0 {
        freed := freed + {n};
      }
      for t := 0 to |ps|
        invariant |ids| == t && freed == old(freed) + {n} && Underway(was, on, taken, n, p, i, ps, ids)
      {
        ids := NextPiece(n, p, ps, ids, was, on, taken, i);
      }
      FollowedEnds(was[p].inodes, i, ps, ids);
      assert ps[..|ps|] == ps;
    }

    /** The state after the pieces that are on the given pages, from nodes was, pages on and used pages taken. */
    ghost predicate Underway(was: Nodes, on: Pages, taken: set<Pgid>, n: Pgid, p: Pgid, i: nat,
                             ps: seq<seq<Inode>>, ids: seq<Pgid>)
      reads this
    {
      && n in was && p in was && i < |was[p].inodes| && NoneEmpty(ps) && |ids| <= |ps|
      && pageSize > 0 && used == taken + RunsOf(ps, ids, pageSize)
      && NewIds(ids, taken) && taken <= used && Elems(ids) <= used
      && WrittenSoFar(on, pages, ps, ids, |ids|, was[n].isLeaf)
      && nodes == was[p := was[p].(inodes := Followed(was[p].inodes, i, ps, ids))]
    }

    method NextPiece(n: Pgid, p: Pgid, ps: seq<seq<Inode>>, ids: seq<Pgid>, ghost was: Nodes, ghost on: Pages,
                     ghost taken: set<Pgid>, ghost i: nat)
      returns (ids': seq<Pgid>)
      requires pageSize > 0 && {0, 1} <= used && n != p && |ids| < |ps| && Underway(was, on, taken, n, p, i, ps, ids)
      requires PieceSlot(was[p].inodes, i, was[n].key, ps)
      modifies `nodes, `pages, `used
      ensures |ids'| == |ids| + 1 && Underway(was, on, taken, n, p, i, ps, ids') && old(used) <= used
    {
      var q := WritePiece(ps, |ids|, n, ids);
      TakenNext(taken, old(used), used, ps, ids, q, pageSize);
      EnterPiece(n, p, ps, ids, q, was, i);
      NewIdsNext(ids, q, taken);
      ids' := ids + [q];
    }

    /** The entry of a piece that was written goes into the parent. */
    method EnterPiece(n: Pgid, p: Pgid, ps: seq<seq<Inode>>, ids: seq<Pgid>, q: Pgid, ghost was: Nodes, ghost i: nat)
      requires n in was && p in was && n != p && |ids| < |ps| && NoneEmpty(ps) && i < |was[p].inodes|
      requires PieceSlot(was[p].inodes, i, was[n].key, ps)
      requires nodes == was[p := was[p].(inodes := Followed(was[p].inodes, i, ps, ids))]
      modifies `nodes
      ensures nodes == was[p := was[p].(inodes := Followed(was[p].inodes, i, ps, ids + [q]))]
    {
      var t := |ids|;
      var r := PutNext(nodes[p].inodes, if t == 0 then nodes[n].key else ps[t][0].key, q, was[p].inodes, i, was[n].key,
                       ps, ids, t);
      nodes := nodes[p := nodes[p].(inodes := r)];
    }

    method WritePiece(ps: seq<seq<Inode>>, t: nat, n: Pgid, ids: seq<Pgid>) returns (q: Pgid)
      requires pageSize > 0 && {0, 1} <= used && n in nodes && t == |ids| < |ps| && NoRepeat(ids) && Elems(ids) <= used
      modifies `pages, `used
      ensures q >= 2 && q !in old(used) && old(used) + {q} <= used && NoRepeat(ids + [q])
      ensures used == old(used) + RunOf(q, ps[t], pageSize)
      ensures pages == old(pages)[q := Page(nodes[n].isLeaf, ps[t])]
      ensures forall before :: WrittenSoFar(before, old(pages), ps, ids, t, nodes[n].isLeaf) ==>
        WrittenSoFar(before, pages, ps, ids + [q], t + 1, nodes[n].isLeaf)
    {
      ghost var was, leaf := pages, nodes[n].isLeaf;
      var count;
      q, count := WriteNode(ps[t], nodes[n].isLeaf);
      assert q !in Elems(ids);
      forall before | WrittenSoFar(before, was, ps, ids, t, leaf)
        ensures WrittenSoFar(before, pages, ps, ids + [q], t + 1, leaf)
      {
        WrittenNext(before, was, ps, ids, t, leaf, q);
      }
    }

    /** What spilling below node n, of level k, keeps. */
    twostate predicate KeptAbove(k: nat)
      reads this
    {
      && pageSize > 0 && Kept() && RootId(levels) == old(RootId(levels)) && |levels| == |old(levels)|
      && nodes.Keys <= old(nodes.Keys)
      && (forall m: nat, x {:trigger At(old(levels), m, x)} :: m >= k && At(old(levels), m, x) ==> At(levels, m, x))
      && (forall m: nat, x {:trigger At(old(levels), m, x)} :: m > k && At(old(levels), m, x) && x in old(nodes) ==>
        x in nodes && nodes[x] == old(nodes)[x])
    }

    /** spill for a node below the root: its cached children first, then its own pieces. */
    method SpillNode(n: Pgid, ghost k: nat)
      requires Valid() && n in nodes && nodes[n].parent.Some? && At(levels, k, n)
      modifies this
      ensures Valid() && KeptAbove(k + 1) && n !in nodes
      ensures var p := old(nodes)[n].parent.value;
              && p in old(nodes) && p in nodes
              && nodes[p] == old(nodes)[p].(inodes := nodes[p].inodes, children := Without(old(nodes)[p].children, n))
      decreases k, 1
    {
      ParentFacts(nodes, pages, levels, n, k);
      CachedIn(nodes, pages, levels);
      ghost var b, keys := Account(), nodes.Keys;
      SpillChildren(n, k);
      ghost var b1, keys1 := Account(), nodes.Keys;
      var _, _ := SpillSelf(n, k);
      KeptTwice(b, b1, Account(), keys, keys1, nodes.Keys, pageSize);
    }

    /** The loop of spill over the children, in some order. The siblings that splitting a child adds are
        spilled already and make no difference. */
    method SpillChildren(n: Pgid, ghost k: nat)
      requires Valid() && n in nodes && At(levels, k, n)
      modifies this
      ensures Valid() && KeptAbove(k)
      ensures n in nodes && nodes[n] == old(nodes)[n].(inodes := nodes[n].inodes, children := [])
      decreases k, 0
    {
      CachedIn(nodes, pages, levels);
      MovedNot(Account(), pageSize);
      while nodes[n].children != []
        invariant Valid() && KeptAbove(k)
        invariant n in nodes && nodes[n] == old(nodes)[n].(inodes := nodes[n].inodes, children := nodes[n].children)
        decreases |nodes[n].children|
      {
        assert nodes[n].children[0] in nodes[n].children;
        var c :| c in nodes[n].children;
        ChildLevel(nodes, pages, levels, n, k, c);
        ghost var b1, keys1 := Account(), nodes.Keys;
        SpillChild(n, c, k);
        KeptTwice(old(Account()), b1, Account(), old(nodes.Keys), keys1, nodes.Keys, pageSize);
      }
    }

    method SpillChild(n: Pgid, c: Pgid, ghost k: nat)
      requires Valid() && n in nodes && c in nodes[n].children && k > 0
      requires c in nodes && nodes[c].parent == Some(n) && At(levels, k - 1, c)
      modifies this
      ensures Valid() && KeptAbove(k) && n in nodes && |nodes[n].children| < |old(nodes)[n].children|
      ensures nodes[n] == old(nodes)[n].(inodes := nodes[n].inodes, children := nodes[n].children)
      decreases k - 1, 2
    {
      WithoutShorter(nodes[n].children, c);
      SpillNode(c, k - 1);
    }

    /** The rest of spill: the node is split, and its pieces written. */
    method SpillSelf(n: Pgid, ghost k: nat) returns (ghost ps: seq<seq<Inode>>, ghost ids: seq<Pgid>)
      requires Valid() && n in nodes && nodes[n].parent.Some? && At(levels, k, n) && nodes[n].children == []
      modifies this
      ensures Valid() && KeptAbove(k + 1) && n !in nodes
      ensures var p := old(nodes)[n].parent.value;
              && p in old(nodes) && p in nodes
              && nodes[p] == old(nodes)[p].(inodes := nodes[p].inodes, children := Without(old(nodes)[p].children, n))
      ensures Splits.SplitInto(old(nodes)[n].inodes, ps, pageSize, Splits.Room(pageSize, fillPercent))
      ensures |ids| == |ps| && Written(old(pages), pages, Plain(ps, ids), old(nodes)[n].isLeaf)
    {
      var p := nodes[n].parent.value;
      NodeFull(nodes, pages, levels, n, k);
      var pieces := Cut(n, k);
      ghost var a, on, lv := nodes, pages, levels;
      ghost var j, q, i := SpillPlace(a, on, lv, n, k, pieces);
      var names := WriteUnload(n, p, pieces, k, j, q, i);
      ps, ids := pieces, names;
      OnlyParent(a, on, lv, n, p, k);
    }

    /** The pieces are written, the parent's entries follow, and the node is gone. */
    method WriteUnload(n: Pgid, p: Pgid, ps: seq<seq<Inode>>, ghost k: nat, ghost j: nat, ghost q: nat, ghost i: nat)
      returns (ids: seq<Pgid>)
      requires Valid() && n in nodes && p in nodes && n != p && nodes[n].children == [] && n in Ids(levels) && n > 0
      requires Above(levels, k, j, q, i) && levels[k][j].id == n && levels[k + 1][q].id == p
      requires levels[k + 1][q].inodes[i].pgid == n && levels[k + 1][q].inodes == nodes[p].inodes
      requires levels[k][j].inodes == nodes[n].inodes && (nodes[n].isLeaf <==> k == 0)
      requires CutUp(nodes[n].inodes, ps, nodes[n].isLeaf) && PieceSlot(nodes[p].inodes, i, nodes[n].key, ps)
      requires AllOnePage(ps, pageSize)
      modifies this
      ensures Valid() && RootId(levels) == old(RootId(levels)) && |levels| == |old(levels)|
      ensures Kept() && nodes.Keys == old(nodes.Keys) - {n}
      ensures i < |old(nodes)[p].inodes| && |ids| == |ps| && NoneEmpty(ps)
      ensures nodes == Unload(old(nodes), n, p, Spliced(old(nodes)[p].inodes, i, HeadsOf(ps, ids)))
      ensures Written(old(pages), pages, Plain(ps, ids), old(nodes)[n].isLeaf)
      ensures forall m, x :: m > k && At(old(levels), m, x) ==> At(levels, m, x)
    {
      ghost var a, lv, on, taken := nodes, levels, pages, used;
      ids := WriteAway(n, p, ps, i);
      levels := SpillDone(a, on, pages, lv, n, p, k, j, q, i, ps, ids, taken);
      WrittenMoved(old(Account()), Account(), {n}, ps, ids, a[n].isLeaf, pageSize);
      assert old(nodes.Keys) - nodes.Keys - {0} == {n};
    }

    method WriteAway(n: Pgid, p: Pgid, ps: seq<seq<Inode>>, ghost i: nat) returns (ids: seq<Pgid>)
      requires pageSize > 0 && {0, 1} <= used && n in nodes && p in nodes && n != p && n > 0
      requires ps != [] && PieceSlot(nodes[p].inodes, i, nodes[n].key, ps) && NoneEmpty(ps)
      modifies `nodes, `pages, `used, `freed
      ensures |ids| == |ps| && NewIds(ids, old(used)) && old(used) + Elems(ids) <= used && Elems(ids) !! old(used)
      ensures used == old(used) + RunsOf(ps, ids, pageSize)
      ensures freed == old(freed) + {n} && Written(old(pages), pages, Plain(ps, ids), old(nodes)[n].isLeaf)
      ensures i < |old(nodes)[p].inodes|
      ensures nodes == Unload(old(nodes), n, p, Spliced(old(nodes)[p].inodes, i, HeadsOf(ps, ids)))
    {
      ghost var a := nodes;
      ids := WritePieces(n, p, ps, i);
      Unloading(a, n, p, Spliced(a[p].inodes, i, HeadsOf(ps, ids)));
      UnloadNode(n, p);
    }

    method Cut(n: Pgid, ghost k: nat) returns (ps: seq<seq<Inode>>)
      requires Valid() && n in nodes && At(levels, k, n) && (|levels| > 1 || nodes[n].inodes != [])
      ensures CutUp(nodes[n].inodes, ps, nodes[n].isLeaf) && AllOnePage(ps, pageSize)
      ensures Splits.SplitInto(nodes[n].inodes, ps, pageSize, Splits.Room(pageSize, fillPercent))
    {
      NodeFull(nodes, pages, levels, n, k);
      ps := Splits.Split(nodes[n].inodes, pageSize, fillPercent);
      Splits.RoomBound(pageSize, fillPercent);
      SplitCuts(nodes[n].inodes, ps, pageSize, Splits.Room(pageSize, fillPercent), nodes[n].isLeaf);
    }

    method UnloadNode(n: Pgid, p: Pgid)
      requires n in nodes && p in nodes && n != p
      modifies `nodes
      ensures nodes == Unload(old(nodes), n, p, old(nodes)[p].inodes)
    {
      nodes := map id | id in nodes && id != n ::
        if id == p then nodes[p].(children := Without(nodes[p].children, n)) else nodes[id];
    }

    // ---- the root, and the roots that splitting it creates ----

    /** The root's node holds xs; its page is pgid, or none for a new root or an inline bucket. */
    ghost predicate Atop(a: Nodes, xs: seq<Inode>, leaf: bool, pgid: Pgid)
      reads this
    {
      && pageSize > 0 && InStep(a, pages, levels) && Balanced(levels) && TopOnly(a, RootId(levels), xs, leaf)
      && InOrder(TopAccount(pgid)) && {0, 1} <= used
      && if pgid > 0 then pgid == RootId(levels) else RootId(levels) !in used - {0}
    }

    /** spill for a root whose children are spilled: it is split and its pieces written. If there are
        several, a new root with an entry for each is spilled in turn. */
    method SpillTop(xs: seq<Inode>, leaf: bool, key: Key, pgid: Pgid, ghost a: Nodes)
      returns (ghost ps: seq<seq<Inode>>, ghost ids: seq<Pgid>)
      requires Atop(a, xs, leaf, pgid)
      modifies this
      ensures Valid() && nodes == map[] && Entries(levels) == old(Entries(levels)) && |levels| >= |old(levels)|
      ensures Moved(old(TopAccount(pgid)), Account(), {pgid} - {0}, pageSize) && OnFile(pages, ps, ids, leaf)
      ensures Splits.SplitInto(xs, ps, pageSize, Splits.Room(pageSize, fillPercent))
      decreases |xs|, 1
    {
      var pieces := CutTop(xs, leaf, pgid, a);
      ps := pieces;
      if |pieces| == 1 {
        ids := KeepTop(xs, leaf, key, pgid, a);
      } else {
        FewerHeads(xs, pieces);
        ids := SpillBelow(pieces, xs, leaf, key, pgid, a);
      }
    }

    /** Several pieces of a root: they are written, and the new root is spilled in turn. */
    method SpillBelow(ps: seq<seq<Inode>>, xs: seq<Inode>, leaf: bool, key: Key, pgid: Pgid, ghost a: Nodes)
      returns (ghost ids: seq<Pgid>)
      requires Atop(a, xs, leaf, pgid) && TopCutUp(xs, ps, leaf) && HeadsRise(ps) && |ps| > 1
      requires AllOnePage(ps, pageSize)
      requires |ps| < |xs|
      modifies this
      ensures Valid() && nodes == map[] && Entries(levels) == old(Entries(levels)) && |levels| >= |old(levels)|
      ensures Moved(old(TopAccount(pgid)), Account(), {pgid} - {0}, pageSize) && OnFile(pages, ps, ids, leaf)
      decreases |xs|, 0
    {
      var ys;
      ghost var a';
      ys, a', ids := SplitTop(ps, xs, leaf, key, pgid, a);
      ghost var b1 := TopAccount(0);
      assert {0} - {0} == {};
      var _, _ := SpillTop(ys, false, [], 0, a');
      BelowMoved(old(TopAccount(pgid)), b1, Account(), {pgid} - {0}, ps, ids, leaf, pageSize);
    }

    method CutTop(xs: seq<Inode>, leaf: bool, ghost pgid: Pgid, ghost a: Nodes) returns (ps: seq<seq<Inode>>)
      requires Atop(a, xs, leaf, pgid)
      ensures TopCutUp(xs, ps, leaf) && HeadsRise(ps) && (|ps| == 1 ==> ps[0] == xs) && AllOnePage(ps, pageSize)
      ensures Splits.SplitInto(xs, ps, pageSize, Splits.Room(pageSize, fillPercent))
    {
      TopFacts(a, pages, levels, xs, leaf);
      ps := Splits.Split(xs, pageSize, fillPercent);
      Splits.RoomBound(pageSize, fillPercent);
      TopCut(xs, ps, pageSize, Splits.Room(pageSize, fillPercent), leaf);
    }

    /** The root fits one page. */
    method KeepTop(xs: seq<Inode>, leaf: bool, key: Key, pgid: Pgid, ghost a: Nodes) returns (ghost ids: seq<Pgid>)
      requires Atop(a, xs, leaf, pgid) && Splits.OnePage(xs, pageSize)
      modifies this
      ensures Valid() && nodes == map[] && Entries(levels) == old(Entries(levels)) && |levels| == |old(levels)|
      ensures Moved(old(TopAccount(pgid)), Account(), {pgid} - {0}, pageSize) && OnFile(pages, [xs], ids, leaf)
    {
      ghost var on, taken, lv := pages, used, levels;
      var names, ys := WriteTop([xs], leaf, key, pgid);
      ids := names;
      assert ids == [ids[0]];
      levels := TopWhole(a, on, pages, lv, ids[0], xs, leaf, taken);
      KeepTree(Ids(lv), RootId(lv), pgid, ids[0]);
      assert Elems(ids) == {ids[0]};
      root, nodes := names[0], map[];
      WrittenMoved(old(TopAccount(pgid)), Account(), {pgid} - {0}, [xs], ids, leaf, pageSize);
    }

    /** The root is split below a new root with entries ys. */
    method SplitTop(ps: seq<seq<Inode>>, xs: seq<Inode>, leaf: bool, key: Key, pgid: Pgid, ghost a: Nodes)
      returns (ys: seq<Inode>, ghost a': Nodes, ghost ids: seq<Pgid>)
      requires Atop(a, xs, leaf, pgid) && TopCutUp(xs, ps, leaf) && HeadsRise(ps) && |ps| > 1
      requires AllOnePage(ps, pageSize)
      modifies this
      ensures Atop(a', ys, false, 0) && |ys| == |ps| && Entries(levels) == old(Entries(levels))
      ensures |levels| == |old(levels)| + 1 && Elems(ids) <= used && OnFile(pages, ps, ids, leaf)
      ensures Moved(old(TopAccount(pgid)), TopAccount(0), {pgid} - {0}, pageSize)
    {
      ghost var on, taken, lv, g := pages, used, levels, 0;
      var names;
      names, ys := WriteTop(ps, leaf, key, pgid);
      ids := names;
      levels, g := TopSplit(a, on, pages, lv, ps, ids, xs, leaf, taken, used);
      TopTree(Ids(lv), RootId(lv), pgid, g, Elems(ids), Ids(levels));
      a' := TopNode(g, ys);
      WrittenMoved(old(TopAccount(pgid)), TopAccount(0), {pgid} - {0}, ps, ids, leaf, pageSize);
    }

    /** The loop of spill over the pieces of a root; ys are the entries of the new root, if there is one. */
    method WriteTop(ps: seq<seq<Inode>>, leaf: bool, key: Key, pgid: Pgid) returns (ids: seq<Pgid>, ys: seq<Inode>)
      requires pageSize > 0 && {0, 1} <= used && HeadsRise(ps)
      modifies `pages, `used, `freed
      ensures |ids| == |ps| && NewIds(ids, old(used)) && old(used) + Elems(ids) <= used
      ensures used == old(used) + RunsOf(ps, ids, pageSize) && freed == old(freed) + ({pgid} - {0})
      ensures Written(old(pages), pages, Plain(ps, ids), leaf) && (|ps| > 1 ==> ys == HeadsOf(ps, ids))
    {
      ids, ys := [], [];
      ghost var on, taken := pages, used;
      if pgid > 0 {
        freed := freed + {pgid};
      }
      for t := 0 to |ps|
        invariant |ids| == t && TopUnderway(on, taken, ps, ids, leaf) && (|ps| > 1 ==> ys == HeadsOf(ps, ids))
        invariant freed == old(freed) + ({pgid} - {0})
      {
        var q := TopPiece(ps, ids, leaf, on, taken);
        if |ps| > 1 {
          ys := PutLast(ys, if t == 0 && key != [] then key else ps[t][0].key, q, ps, ids);
        }
        ids := ids + [q];
      }
      assert ps[..|ps|] == ps;
    }

    ghost predicate TopUnderway(on: Pages, taken: set<Pgid>, ps: seq<seq<Inode>>, ids: seq<Pgid>, leaf: bool)
      reads `used, `pages
    {
      && |ids| <= |ps| && pageSize > 0 && used == taken + RunsOf(ps, ids, pageSize)
      && NewIds(ids, taken) && Elems(ids) <= used && WrittenSoFar(on, pages, ps, ids, |ids|, leaf)
    }

    method TopPiece(ps: seq<seq<Inode>>, ids: seq<Pgid>, leaf: bool, ghost on: Pages, ghost taken: set<Pgid>)
      returns (q: Pgid)
      requires pageSize > 0 && {0, 1} <= used && |ids| < |ps| && TopUnderway(on, taken, ps, ids, leaf)
      modifies `pages, `used
      ensures TopUnderway(on, taken, ps, ids + [q], leaf) && old(used) <= used
    {
      ghost var was := pages;
      var count;
      q, count := WriteNode(ps[|ids|], leaf);
      assert q !in Elems(ids);
      WrittenNext(on, was, ps, ids, |ids|, leaf, q);
      RunsNext(ps, ids, q, pageSize);
      NewIdsNext(ids, q, taken);
    }

    /** Bucket.spill: everything that is cached goes to pages. */
    method Spill()
      requires Valid()
      modifies this
      ensures Valid() && Kept() && nodes == map[] && OnPages(pages, levels) && |levels| >= |old(levels)|
    {
      if root !in nodes {
        RootUncached(nodes, pages, levels);
        MovedNot(Account(), pageSize);
        return;
      }
      CachedIn(nodes, pages, levels);
      RootAt(nodes, pages, levels);
      SpillChildren(root, |levels| - 1);
      ghost var b1, keys1 := Account(), nodes.Keys;
      SpillRoot();
      KeptTwice(old(Account()), b1, Account(), old(nodes.Keys), keys1, {}, pageSize);
      AllOnPages(pages, levels);
    }

    /** spill for the root, once its children are spilled. */
    method SpillRoot()
      requires Valid() && root in nodes && nodes[root].children == []
      modifies this
      ensures Valid() && nodes == map[] && Entries(levels) == old(Entries(levels)) && |levels| >= |old(levels)|
      ensures Moved(old(Account()), Account(), old(nodes.Keys) - {} - {0}, pageSize)
    {
      var n := nodes[root];
      RootLeft(nodes, pages, levels);
      SameAccount(Ids(levels), root);
      assert nodes.Keys - {} - {0} == {root} - {0};
      var _, _ := SpillTop(n.inodes, n.isLeaf, n.key, root, nodes);
    }
  }

  lemma {:induction false} SameAccount(ids: set<Pgid>, r: Pgid)
    requires r in ids
    ensures ids - {r} + {r} - {0} == ids - {0}
  {
  }

  /** The pieces of a root, and then the roots above them. */
  lemma {:induction false} BelowMoved(b: Books, b1: Books, b2: Books, gone: set<Pgid>, ps: seq<seq<Inode>>,
                                      ids: seq<Pgid>, leaf: bool, pageSize: nat)
    requires pageSize > 0 && InOrder(b) && InOrder(b1) && Moved(b, b1, gone, pageSize) && Moved(b1, b2, {}, pageSize)
    requires OnFile(b1.pages, ps, ids, leaf) && Elems(ids) <= b1.used
    ensures Moved(b, b2, gone, pageSize) && OnFile(b2.pages, ps, ids, leaf)
  {
    MovedOnFile(b1, b2, {}, ps, ids, leaf, pageSize);
    MovedAgain(b, b1, b2, gone, pageSize);
  }

  lemma {:induction false} KeepTree(ids: set<Pgid>, r: Pgid, pgid: Pgid, id: Pgid)
    requires id != 0 && (pgid > 0 ==> pgid == r)
    ensures ids - {r} + {id} - {0} == ids - {r} + {pgid} - {0} - ({pgid} - {0}) + {id}
  {
  }

  /** The pages of the tree below a new root g, which has none itself. */
  lemma {:induction false} TopTree(ids: set<Pgid>, r: Pgid, pgid: Pgid, g: Pgid, more: set<Pgid>, ids': set<Pgid>)
    requires ids' == ids - {r} + more + {g} && g !in ids && g !in more && 0 !in more && (pgid > 0 ==> pgid == r)
    ensures ids' - {g} + {0} - {0} == ids - {r} + {pgid} - {0} - ({pgid} - {0}) + more
  {
  }

  /** The pages of two parts of spilling, by the keys that are cached before, between and after. */
  lemma {:induction false} KeptTwice(b: Books, b1: Books, b2: Books, keys: set<Pgid>, keys1: set<Pgid>,
                                     keys2: set<Pgid>, pageSize: nat)
    requires pageSize > 0 && InOrder(b) && InOrder(b1) && keys - {0} <= b.tree && keys2 <= keys1 <= keys
    requires Moved(b, b1, keys - keys1 - {0}, pageSize) && Moved(b1, b2, keys1 - keys2 - {0}, pageSize)
    ensures Moved(b, b2, keys - keys2 - {0}, pageSize)
  {
    MovedTwice(b, b1, b2, keys - keys1 - {0}, keys1 - keys2 - {0}, pageSize);
    assert (keys - keys1 - {0}) + (keys1 - keys2 - {0}) == keys - keys2 - {0};
  }

  lemma {:induction false} Unloading(a: Nodes, n: Pgid, p: Pgid, xs: seq<Inode>)
    requires p in a && n != p
    ensures Unload(a[p := a[p].(inodes := xs)], n, p, xs) == Unload(a, n, p, xs)
  {
  }

  /** Nodes of other levels than those of a node and its parent are other nodes. */
  lemma {:induction false} OnlyParent(a: Nodes, pages: Pages, lv: Stack, n: Pgid, p: Pgid, k: nat)
    requires InStep(a, pages, lv) && n in a && At(lv, k, n) && At(lv, k + 1, p)
    ensures forall m: nat, x {:trigger At(lv, m, x)} :: m > k + 1 && At(lv, m, x) ==> x != n && x != p
  {
    Unfold(a, pages, lv);
    var i :| 0 <= i < |lv[k]| && lv[k][i].id == n;
    var j :| 0 <= j < |lv[k + 1]| && lv[k + 1][j].id == p;
    forall m: nat, x | m > k + 1 && At(lv, m, x) ensures x != n && x != p {
      var o :| 0 <= o < |lv[m]| && lv[m][o].id == x;
      Differ(lv, m, o, k, i);
      Differ(lv, m, o, k + 1, j);
    }
  }

  lemma {:induction false} WithoutShorter<T>(s: seq<T>, x: T)
    requires x in s
    ensures |Without(s, x)| < |s|
  {
    if s[0] != x {
      assert s == [s[0]] + s[1..];
      WithoutShorter(s[1..], x);
    }
  }
}
