/** Spilling: every cached node is split and written to new pages, children before parents. */
module Spills {
  import opened Options
  import opened Bytes
  import opened Pgids
  import opened Levels
  import opened Tree
  import opened Arena
  import opened Steps
  import opened Buckets

  // ---- one node goes to pages ----

  /** The pieces are written to their pages, and nothing else changes. */
  ghost predicate Written(pages: Pages, pages': Pages, ps: Level, leaf: bool)
  {
    && (forall m :: 0 <= m < |ps| ==> ps[m].id in pages' && pages'[ps[m].id] == Page(leaf, ps[m].inodes))
    && (forall id :: id !in IdsOf(ps) ==> (id in pages' <==> id in pages) && (id in pages ==> pages'[id] == pages[id]))
  }

  /** Node n is not cached any more; its parent p has other entries and one child less to spill. */
  ghost function Unload(a: Nodes, n: Pgid, p: Pgid, xs: seq<Inode>): Nodes
    requires p in a
  {
    map id | id in a && id != n :: if id == p then a[p].(inodes := xs, children := Without(a[p].children, n)) else a[id]
  }

  /** Node n, at (k, j) and below p, which is at (k + 1, q), may be replaced by the pieces. */
  ghost predicate Ready(a: Nodes, pages: Pages, lv: Stack, n: Pgid, p: Pgid, k: nat, j: nat, q: nat, i: nat, ps: Level)
  {
    && Tied(a, pages, lv) && p in a && n != p && Above(lv, k, j, q, i) && lv[k][j].id == n && lv[k + 1][q].id == p
    && Pieces(lv[k][j].inodes, ps) && Fresh(lv, ps) && 0 !in IdsOf(ps)
    && (forall id :: id in a ==> a[id].parent != Some(n))
  }

  /** The nodes of the tree after the splice, one by one. */
  lemma {:induction false} SpliceAt(lv: Stack, k: nat, j: nat, q: nat, i: nat, ps: Level, m: nat, x: nat)
    requires Above(lv, k, j, q, i) && Pieces(lv[k][j].inodes, ps) && m < |lv|
    requires x < |SpliceNode(lv, k, j, q, i, ps)[m]|
    ensures var lv' := SpliceNode(lv, k, j, q, i, ps);
            && (m == k && j <= x < j + |ps| ==> lv'[m][x] == ps[x - j])
            && (!(m == k && j <= x < j + |ps|) ==>
              var o := if m == k && x > j then x - |ps| + 1 else x;
              && 0 <= o < |lv[m]| && !(m == k && o == j) && lv'[m][x].id == lv[m][o].id
              && lv'[m][x].inodes == (
                if m == k + 1 && x == q then Spliced(lv[m][o].inodes, i, Heads(ps)) else lv[m][o].inodes))
  {
    SplicedIndex(lv[k], j, ps);
  }

  lemma {:induction false} SpliceIds(lv: Stack, k: nat, j: nat, q: nat, i: nat, ps: Level)
    requires WF(lv) && Above(lv, k, j, q, i) && Pieces(lv[k][j].inodes, ps) && Fresh(lv, ps)
    ensures Ids(SpliceNode(lv, k, j, q, i, ps)) == Ids(lv) - {lv[k][j].id} + IdsOf(ps)
  {
    var lv' := SpliceNode(lv, k, j, q, i, ps);
    SplicedIndex(lv[k], j, ps);
    forall id | id in Ids(lv') ensures id in Ids(lv) - {lv[k][j].id} + IdsOf(ps) {
      var m, x := InIds(lv', id);
      SpliceAt(lv, k, j, q, i, ps, m, x);
      if m == k && j <= x < j + |ps| {
        assert ps[x - j] in ps;
      } else {
        var o := if m == k && x > j then x - |ps| + 1 else x;
        IdsIn(lv, m, o);
        Differ(lv, m, o, k, j);
      }
    }
    forall id | id in IdsOf(ps) ensures id in Ids(lv') {
      var y :| 0 <= y < |ps| && ps[y].id == id;
      SpliceAt(lv, k, j, q, i, ps, k, j + y);
      IdsIn(lv', k, j + y);
    }
    forall id | id in Ids(lv) && id != lv[k][j].id ensures id in Ids(lv') {
      var m, o := InIds(lv, id);
      var x := if m == k && o > j then o + |ps| - 1 else o;
      SpliceAt(lv, k, j, q, i, ps, m, x);
      IdsIn(lv', m, x);
    }
  }

  lemma {:induction false} NewPage(lv: Stack, ps: Level, m: nat, o: nat)
    requires Fresh(lv, ps) && m < |lv| && o < |lv[m]|
    ensures lv[m][o].id !in IdsOf(ps)
  {
    assert lv[m][o] in lv[m];
    assert lv[m][o].id in IdsOf(lv[m]);
  }

  lemma {:induction false} SpliceShown(a: Nodes, pages: Pages, pages': Pages, lv: Stack, n: Pgid, p: Pgid,
                                       k: nat, j: nat, q: nat, i: nat, ps: Level)
    requires Ready(a, pages, lv, n, p, k, j, q, i, ps) && Written(pages, pages', ps, k == 0)
    ensures ShownAll(Unload(a, n, p, Spliced(lv[k + 1][q].inodes, i, Heads(ps))), pages',
      SpliceNode(lv, k, j, q, i, ps))
  {
    var a', lv' := Unload(a, n, p, Spliced(lv[k + 1][q].inodes, i, Heads(ps))), SpliceNode(lv, k, j, q, i, ps);
    forall m, x | 0 <= m < |lv'| && 0 <= x < |lv'[m]| ensures ShownAt(a', pages', lv', m, x) {
      SpliceShownAt(a, pages, pages', lv, n, p, k, j, q, i, ps, m, x);
    }
  }

  lemma {:induction false} SpliceShownAt(a: Nodes, pages: Pages, pages': Pages, lv: Stack, n: Pgid, p: Pgid,
                                         k: nat, j: nat, q: nat, i: nat, ps: Level, m: nat, x: nat)
    requires Ready(a, pages, lv, n, p, k, j, q, i, ps) && Written(pages, pages', ps, k == 0)
    requires var lv' := SpliceNode(lv, k, j, q, i, ps); m < |lv'| && x < |lv'[m]|
    ensures ShownAt(Unload(a, n, p, Spliced(lv[k + 1][q].inodes, i, Heads(ps))), pages',
      SpliceNode(lv, k, j, q, i, ps), m, x)
  {
    SpliceAt(lv, k, j, q, i, ps, m, x);
    if m == k && j <= x < j + |ps| {
      assert ps[x - j] in ps;
      PieceNotCached(a, pages, lv, ps, x - j);
    } else {
      var o := if m == k && x > j then x - |ps| + 1 else x;
      NewPage(lv, ps, m, o);
      Differ(lv, m, o, k, j);
      Differ(lv, m, o, k + 1, q);
      OldShown(a, pages, pages', lv, n, p, k, q, Spliced(lv[k + 1][q].inodes, i, Heads(ps)), ps, m, o);
    }
  }

  /** A node that is not replaced is shown as before, or with its new entries. */
  lemma {:induction false} OldShown(a: Nodes, pages: Pages, pages': Pages, lv: Stack, n: Pgid, p: Pgid, k: nat, q: nat,
                                    xs: seq<Inode>, ps: Level, m: nat, o: nat)
    requires ShownAll(a, pages, lv) && p in a && n != p && k + 1 < |lv| && q < |lv[k + 1]| && lv[k + 1][q].id == p
    requires m < |lv| && o < |lv[m]| && lv[m][o].id != n && lv[m][o].id !in IdsOf(ps)
      && Written(pages, pages', ps, k == 0)
    requires lv[m][o].id == p ==> m == k + 1 && o == q
    ensures Shown(Unload(a, n, p, xs), pages', Rec(lv[m][o].id, if m == k + 1
      && o == q then xs else lv[m][o].inodes), m == 0)
  {
    assert ShownAt(a, pages, lv, m, o);
  }

  lemma {:induction false} PieceNotCached(a: Nodes, pages: Pages, lv: Stack, ps: Level, y: nat)
    requires a.Keys <= Ids(lv) && Fresh(lv, ps) && y < |ps|
    ensures ps[y].id !in a
  {
    assert ps[y] in ps;
    if ps[y].id in a {
      var m, o := InIds(lv, ps[y].id);
      NewPage(lv, ps, m, o);
    }
  }

  lemma {:induction false} SplicedKeeps(xs: seq<Inode>, i: nat, h: seq<Inode>, id: Pgid, key: Key)
    requires i < |xs| && xs[i].pgid != id && HasEntry(xs, id, key)
    ensures HasEntry(Spliced(xs, i, h), id, key)
  {
    var m :| 0 <= m < |xs| && xs[m].pgid == id && xs[m].key == key;
    SplicedIndex(xs, i, h);
    assert Spliced(xs, i, h)[if m < i then m else m + |h| - 1] == xs[m];
  }

  lemma {:induction false} SpliceLinks(a: Nodes, pages: Pages, lv: Stack, n: Pgid, p: Pgid,
                                       k: nat, j: nat, q: nat, i: nat, ps: Level, id: Pgid)
    requires Ready(a, pages, lv, n, p, k, j, q, i, ps) && id in a && id != n && lv[k + 1][q].inodes[i].pgid == n
    ensures var a' := Unload(a, n, p, Spliced(lv[k + 1][q].inodes, i, Heads(ps)));
            LinkOk(a', Root(lv).id, id) && ListOk(a', id)
  {
    assert LinkOk(a, Root(lv).id, id) && ListOk(a, id);
    ShownIs(a, pages, lv, k + 1, q, p);
    if n in a {
      ChildParent(a, pages, lv, n, p);
    }
    if id != Root(lv).id && a[id].parent == Some(p) {
      SplicedKeeps(a[p].inodes, i, Heads(ps), id, a[id].key);
    }
    if id == p {
      WithoutIn(a[p].children, n);
    }
  }

  lemma {:induction false} SpliceStrict(a: Nodes, pages: Pages, pages': Pages, lv: Stack, n: Pgid, p: Pgid,
                                        k: nat, j: nat, q: nat, i: nat, ps: Level)
    requires Ready(a, pages, lv, n, p, k, j, q, i, ps) && Written(pages, pages', ps, k == 0)
    ensures Strict(Unload(a, n, p, Spliced(lv[k + 1][q].inodes, i, Heads(ps))), pages', SpliceNode(lv, k, j, q, i, ps))
  {
    var a', lv' := Unload(a, n, p, Spliced(lv[k + 1][q].inodes, i, Heads(ps))), SpliceNode(lv, k, j, q, i, ps);
    forall m, x | 0 < m < |lv'| && 0 <= x < |lv'[m]| ensures StrictAt(a', pages', lv', m, x) {
      forall e | 0 <= e < |lv'[m][x].inodes| ensures EntryStrict(a', pages', lv'[m][x].inodes[e]) {
        var o, f := SpliceEntry(lv, k, j, q, i, ps, m, x, e);
        if f >= 0 {
          OldEntry(a, pages, pages', lv, n, k, j, q, i, ps, m, o, f);
        }
      }
    }
  }

  /** An entry of the tree after the splice is the head of a piece, or was an entry before. */
  lemma {:induction false} SpliceEntry(lv: Stack, k: nat, j: nat, q: nat, i: nat, ps: Level, m: nat, x: nat, e: nat)
    returns (o: nat, f: int)
    requires Above(lv, k, j, q, i) && Pieces(lv[k][j].inodes, ps) && 0 < m < |lv|
    requires x < |SpliceNode(lv, k, j, q, i, ps)[m]| && e < |SpliceNode(lv, k, j, q, i, ps)[m][x].inodes|
    ensures var z := SpliceNode(lv, k, j, q, i, ps)[m][x].inodes[e];
            if f < 0 then o < |ps| && z == Head(ps[o])
            else o < |lv[m]| && f < |lv[m][o].inodes| && z == lv[m][o].inodes[f] && !(m == k + 1 && o == q && f == i)
  {
    SpliceAt(lv, k, j, q, i, ps, m, x);
    if m == k && j <= x < j + |ps| {
      FlatAt(ps, x - j, e);
      o, f := j, Off(ps, x - j) + e;
    } else {
      o, f := if m == k && x > j then x - |ps| + 1 else x, e;
      if m == k + 1 && x == q {
        SplicedIndex(lv[m][o].inodes, i, Heads(ps));
        if i <= e < i + |ps| {
          o, f := e - i, -1;
        } else if e >= i + |ps| {
          f := e - |ps| + 1;
        }
      }
    }
  }

  lemma {:induction false} OldEntry(a: Nodes, pages: Pages, pages': Pages, lv: Stack, n: Pgid, k: nat, j: nat, q: nat,
                                    i: nat, ps: Level, m: nat, o: nat, f: nat)
    requires Tied(a, pages, lv) && Above(lv, k, j, q, i) && lv[k][j].id == n && Fresh(lv, ps)
    requires Written(pages, pages', ps, k == 0)
    requires 0 < m < |lv| && o < |lv[m]| && f < |lv[m][o].inodes| && !(m == k + 1 && o == q && f == i)
    ensures lv[m][o].inodes[f].pgid != n && EntryStrict(a, pages', lv[m][o].inodes[f])
  {
    OnlyEntry(lv, m, o, f, k, j, q, i);
    assert StrictAt(a, pages, lv, m, o);
    assert EntryStrict(a, pages, lv[m][o].inodes[f]);
    var c := PlaceEntry(lv, m, o, f);
    NewPage(lv, ps, m - 1, c);
  }

  lemma {:induction false} SpliceShape(lv: Stack, k: nat, j: nat, q: nat, i: nat, ps: Level)
    requires WF(lv) && LeafPgids(lv) && Above(lv, k, j, q, i) && Pieces(lv[k][j].inodes, ps) && Fresh(lv, ps)
    requires 0 !in IdsOf(ps)
    ensures var lv' := SpliceNode(lv, k, j, q, i, ps);
            && WF(lv') && LeafPgids(lv') && Contents(lv') == Contents(lv) && Root(lv').id == Root(lv).id
            && Ids(lv') == Ids(lv) - {lv[k][j].id} + IdsOf(ps)
  {
    var lv' := SpliceNode(lv, k, j, q, i, ps);
    assert WF(lv') && Contents(lv') == Contents(lv) by { SpliceNodeWF(lv, k, j, q, i, ps); }
    assert Ids(lv') == Ids(lv) - {lv[k][j].id} + IdsOf(ps) by { SpliceIds(lv, k, j, q, i, ps); }
    SpliceRoot(lv, k, j, q, i, ps);
    SpliceLeaves(lv, lv', lv[k][j].id, ps);
  }

  /** Replacing a node by its pieces keeps nodes and pages in step with the tree, and its contents. */
  lemma {:induction false} SpliceTied(a: Nodes, pages: Pages, pages': Pages, lv: Stack, n: Pgid, p: Pgid,
                                      k: nat, j: nat, q: nat, i: nat, ps: Level)
    requires Ready(a, pages, lv, n, p, k, j, q, i, ps) && Written(pages, pages', ps, k == 0)
    requires lv[k + 1][q].inodes[i].pgid == n
    ensures var lv' := SpliceNode(lv, k, j, q, i, ps);
            && Tied(Unload(a, n, p, Spliced(lv[k + 1][q].inodes, i, Heads(ps))), pages', lv')
            && Contents(lv') == Contents(lv) && Ids(lv') == Ids(lv) - {n} + IdsOf(ps) && RootId(lv') == RootId(lv)
  {
    var a', lv' := Unload(a, n, p, Spliced(lv[k + 1][q].inodes, i, Heads(ps))), SpliceNode(lv, k, j, q, i, ps);
    SpliceShape(lv, k, j, q, i, ps);
    SpliceShown(a, pages, pages', lv, n, p, k, j, q, i, ps);
    SpliceStrict(a, pages, pages', lv, n, p, k, j, q, i, ps);
    assert Linked(a', Root(lv').id) && Listed(a') by {
      forall id | id in a' ensures LinkOk(a', Root(lv').id, id) && ListOk(a', id) {
        SpliceLinks(a, pages, lv, n, p, k, j, q, i, ps, id);
      }
    }
  }

  lemma {:induction false} SpliceLeaves(lv: Stack, lv': Stack, n: Pgid, ps: Level)
    requires |lv| > 1 && |lv'| == |lv| && LeafPgids(lv) && 0 !in IdsOf(ps)
    requires Contents(lv') == Contents(lv) && Ids(lv') == Ids(lv) - {n} + IdsOf(ps)
    ensures LeafPgids(lv')
  {
  }

  lemma {:induction false} SpliceRoot(lv: Stack, k: nat, j: nat, q: nat, i: nat, ps: Level)
    requires WF(lv) && Above(lv, k, j, q, i) && Pieces(lv[k][j].inodes, ps)
    ensures var lv' := SpliceNode(lv, k, j, q, i, ps);
            |lv'| == |lv| && |lv'[|lv| - 1]| == 1 && lv'[|lv| - 1][0].id == Root(lv).id
  {
  }

  // ---- the root goes to pages ----

  /** Only the root is still cached. */
  ghost predicate OnlyRoot(a: Nodes, pages: Pages, lv: Stack)
  {
    Tied(a, pages, lv) && a.Keys == {Root(lv).id}
  }

  ghost function Whole(lv: Stack, id: Pgid): Level
    requires WF(lv)
  {
    [Rec(id, Root(lv).inodes)]
  }

  lemma {:induction false} RenamedIds(lv: Stack, id: Pgid)
    requires WF(lv) && id !in Ids(lv)
    ensures WF(Renamed(lv, id)) && Contents(Renamed(lv, id)) == Contents(lv)
    ensures Ids(Renamed(lv, id)) == Ids(lv) - {Root(lv).id} + {id}
  {
    var t, lv' := |lv| - 1, Renamed(lv, id);
    forall m | 0 <= m < t ensures id !in IdsOf(lv[m]) {
      assert IdsOf(lv[m]) <= Ids(lv);
    }
    RenamedWF(lv, id);
    forall x | x in Ids(lv') ensures x in Ids(lv) - {Root(lv).id} + {id} {
      var m, o := InIds(lv', x);
      if m < t {
        IdsIn(lv, m, o);
        Differ(lv, m, o, t, 0);
      }
    }
    forall x | x in Ids(lv) && x != Root(lv).id ensures x in Ids(lv') {
      var m, o := InIds(lv, x);
      IdsIn(lv', m, o);
    }
    IdsIn(lv', t, 0);
  }

  /** The levels below the root are on pages, whatever happens to the root. */
  lemma {:induction false} BelowRoot(a: Nodes, pages: Pages, pages': Pages, lv: Stack, ps: Level, m: nat, o: nat)
    requires OnlyRoot(a, pages, lv) && Written(pages, pages', ps, |lv| == 1) && m + 1 < |lv| && o < |lv[m]|
    requires forall x :: 0 <= x < |ps| ==> ps[x].id !in Ids(lv)
    ensures lv[m][o].id != Root(lv).id && lv[m][o].id in pages' && pages'[lv[m][o].id] == Page(m == 0, lv[m][o].inodes)
  {
    assert ShownAt(a, pages, lv, m, o);
    Differ(lv, m, o, |lv| - 1, 0);
    IdsIn(lv, m, o);
    assert lv[m][o].id !in IdsOf(ps);
  }

  lemma {:induction false} StrictBelow(a: Nodes, pages: Pages, pages': Pages, lv: Stack, ps: Level, m: nat, o: nat,
                                       e: nat)
    requires OnlyRoot(a, pages, lv) && Written(pages, pages', ps, |lv| == 1)
    requires 0 < m < |lv| && o < |lv[m]| && e < |lv[m][o].inodes|
    requires forall x :: 0 <= x < |ps| ==> ps[x].id !in Ids(lv)
    ensures EntryStrict(map[], pages', lv[m][o].inodes[e])
  {
    var c := PlaceEntry(lv, m, o, e);
    BelowRoot(a, pages, pages', lv, ps, m - 1, c);
    assert StrictAt(a, pages, lv, m, o);
    assert EntryStrict(a, pages, lv[m][o].inodes[e]);
    IdsIn(lv, m - 1, c);
    assert lv[m][o].inodes[e].pgid !in IdsOf(ps);
  }

  /** The root is written whole. */
  lemma {:induction false} RenameTied(a: Nodes, pages: Pages, pages': Pages, lv: Stack, id: Pgid)
    requires OnlyRoot(a, pages, lv) && id !in Ids(lv) && id != 0 && Written(pages, pages', Whole(lv, id), |lv| == 1)
    ensures Tied(map[], pages', Renamed(lv, id)) && Contents(Renamed(lv, id)) == Contents(lv)
    ensures Ids(Renamed(lv, id)) == Ids(lv) - {Root(lv).id} + {id} && RootId(Renamed(lv, id)) == id
  {
    var t, lv', ps := |lv| - 1, Renamed(lv, id), Whole(lv, id);
    RenamedIds(lv, id);
    forall m, o | 0 <= m < |lv'| && 0 <= o < |lv'[m]| ensures ShownAt(map[], pages', lv', m, o) {
      if m < t {
        BelowRoot(a, pages, pages', lv, ps, m, o);
      } else {
        assert lv'[m][o] == ps[0];
      }
    }
    forall m, o | 0 < m < |lv'| && 0 <= o < |lv'[m]| ensures StrictAt(map[], pages', lv', m, o) {
      forall e | 0 <= e < |lv'[m][o].inodes| ensures EntryStrict(map[], pages', lv'[m][o].inodes[e]) {
        StrictBelow(a, pages, pages', lv, ps, m, o, e);
      }
    }
  }

  /** A root that is not on a page yet can have any name. */
  lemma {:induction false} AnyName(a: Nodes, pages: Pages, lv: Stack, g: Pgid)
    requires OnlyRoot(a, pages, lv) && g !in Ids(lv) && g != 0
    ensures OnlyRoot(map[g := a[Root(lv).id]], pages, Renamed(lv, g)) && Contents(Renamed(lv, g)) == Contents(lv)
    ensures Ids(Renamed(lv, g)) == Ids(lv) - {Root(lv).id} + {g} && Root(Renamed(lv, g)) == Rec(g, Root(lv).inodes)
  {
    var t, lv', a' := |lv| - 1, Renamed(lv, g), map[g := a[Root(lv).id]];
    RenamedIds(lv, g);
    ShownIs(a, pages, lv, t, 0, Root(lv).id);
    forall m, o | 0 <= m < |lv'| && 0 <= o < |lv'[m]| ensures ShownAt(a', pages, lv', m, o) {
      if m < t {
        BelowRoot(a, pages, pages, lv, [], m, o);
        IdsIn(lv, m, o);
      }
    }
    forall m, o | 0 < m < |lv'| && 0 <= o < |lv'[m]| ensures StrictAt(a', pages, lv', m, o) {
      forall e | 0 <= e < |lv'[m][o].inodes| ensures EntryStrict(a', pages, lv'[m][o].inodes[e]) {
        StrictBelow(a, pages, pages, lv, [], m, o, e);
      }
    }
    assert LinkOk(a, Root(lv).id, Root(lv).id) && ListOk(a, Root(lv).id);
    assert LinkOk(a', g, g) && ListOk(a', g);
  }

  /** The root is split, and a new root g gets an entry for each piece. */
  ghost function SplitRoot(lv: Stack, ps: Level, g: Pgid): Stack
    requires |lv| > 0 && forall m :: 0 <= m < |ps| ==> ps[m].inodes != []
  {
    lv[|lv| - 1 := ps] + [[Rec(g, Heads(ps))]]
  }

  lemma {:induction false} SplitRootWF(lv: Stack, ps: Level, g: Pgid, t: Pgid)
    requires WF(lv) && Pieces(Root(lv).inodes, ps) && Fresh(lv, ps)
    requires g !in Ids(lv) && g !in IdsOf(ps) && t !in Ids(lv) && t !in IdsOf(ps) && g != t
    ensures WF(SplitRoot(lv, ps, g)) && Contents(SplitRoot(lv, ps, g)) == Contents(lv)
    ensures Ids(SplitRoot(lv, ps, g)) == Ids(lv) - {Root(lv).id} + IdsOf(ps) + {g}
  {
    var k, l1 := |lv| - 1, Renamed(lv, t);
    RenamedIds(lv, t);
    HeadsAsc1(Root(lv).inodes, ps);
    var l2 := Grown(l1, g);
    GrownWF(l1, g);
    GrownFresh(lv, l2, ps, g, t);
    SpliceNodeWF(l2, k, 0, 0, 0, ps);
    GrownSplit(lv, l2, ps, g, t);
    SplitRootIds(lv, ps, g);
  }

  /** A new root with one entry, whose child is replaced by pieces, is a root with an entry for each. */
  lemma {:induction false} GrownSplit(lv: Stack, l2: Stack, ps: Level, g: Pgid, t: Pgid)
    requires WF(lv) && Root(lv).inodes != [] && l2 == Grown(Renamed(lv, t), g) && Above(l2, |lv| - 1, 0, 0, 0)
    requires Pieces(l2[|lv| - 1][0].inodes, ps)
    ensures SpliceNode(l2, |lv| - 1, 0, 0, 0, ps) == SplitRoot(lv, ps, g)
  {
    var k := |lv| - 1;
    assert l2[k] == [l2[k][0]] && l2[k + 1] == [l2[k + 1][0]];
    assert Spliced(l2[k], 0, ps) == ps;
    assert Spliced(l2[k + 1][0].inodes, 0, Heads(ps)) == Heads(ps);
    assert SpliceParent(l2[k + 1], 0, 0, ps) == [Rec(g, Heads(ps))];
  }

  lemma {:induction false} HeadsAsc1(x: seq<Inode>, ps: Level)
    requires Pieces(x, ps)
    ensures x != []
  {
    FlatSplit(ps, 0);
  }

  lemma {:induction false} GrownFresh(lv: Stack, l2: Stack, ps: Level, g: Pgid, t: Pgid)
    requires WF(lv) && Root(lv).inodes != [] && l2 == Grown(Renamed(lv, t), g)
    requires Fresh(lv, ps) && g !in IdsOf(ps) && t !in IdsOf(ps)
    ensures Fresh(l2, ps)
  {
    forall m | 0 <= m < |l2| ensures IdsOf(ps) !! IdsOf(l2[m]) {
      if m < |lv| - 1 {
        assert l2[m] == lv[m];
      } else {
        assert l2[m] == [l2[m][0]];
        assert IdsOf(l2[m]) == {l2[m][0].id};
      }
    }
  }

  lemma {:induction false} SplitRootIds(lv: Stack, ps: Level, g: Pgid)
    requires WF(lv) && forall m :: 0 <= m < |ps| ==> ps[m].inodes != []
    ensures Ids(SplitRoot(lv, ps, g)) == Ids(lv) - {Root(lv).id} + IdsOf(ps) + {g}
  {
    var lv', t := SplitRoot(lv, ps, g), |lv| - 1;
    forall x | x in Ids(lv') ensures x in Ids(lv) - {Root(lv).id} + IdsOf(ps) + {g} {
      var m, o := InIds(lv', x);
      if m < t {
        IdsIn(lv, m, o);
        Differ(lv, m, o, t, 0);
      } else if m == t {
        assert ps[o] in ps;
      }
    }
    forall x | x in Ids(lv) && x != Root(lv).id ensures x in Ids(lv') {
      var m, o := InIds(lv, x);
      IdsIn(lv', m, o);
    }
    forall x | x in IdsOf(ps) ensures x in Ids(lv') {
      var o :| 0 <= o < |ps| && ps[o].id == x;
      IdsIn(lv', t, o);
    }
    IdsIn(lv', t + 1, 0);
  }

  /** The new root is cached until it is spilled itself; all else is on pages. */
  lemma {:induction false} SplitRootTied(a: Nodes, pages: Pages, pages': Pages, lv: Stack, ps: Level, g: Pgid, t: Pgid)
    requires OnlyRoot(a, pages, lv) && Pieces(Root(lv).inodes, ps) && Fresh(lv, ps) && 0 !in IdsOf(ps) && g != 0
    requires g !in Ids(lv) && g !in IdsOf(ps) && t !in Ids(lv) && t !in IdsOf(ps) && g != t
    requires Written(pages, pages', ps, |lv| == 1)
    ensures var lv', a' := SplitRoot(lv, ps, g), map[g := NodeState(false, false, [], None, [], Heads(ps))];
            && OnlyRoot(a', pages', lv') && Root(lv').id == g && Contents(lv') == Contents(lv)
            && Ids(lv') == Ids(lv) - {Root(lv).id} + IdsOf(ps) + {g}
  {
    var lv' := SplitRoot(lv, ps, g);
    SplitRootWF(lv, ps, g, t);
    SplitRootLeaves(lv, ps, g);
    SplitRootShown(a, pages, pages', lv, ps, g);
    SplitRootStrict(a, pages, pages', lv, ps, g);
  }

  lemma {:induction false} SplitRootLeaves(lv: Stack, ps: Level, g: Pgid)
    requires WF(lv) && LeafPgids(lv) && Pieces(Root(lv).inodes, ps) && 0 !in IdsOf(ps) && g != 0
    requires Contents(SplitRoot(lv, ps, g)) == Contents(lv)
    requires Ids(SplitRoot(lv, ps, g)) == Ids(lv) - {Root(lv).id} + IdsOf(ps) + {g}
    ensures LeafPgids(SplitRoot(lv, ps, g))
  {
    forall x | |lv| == 1 && x in Ids(lv) ensures x == Root(lv).id {
      var m, o := InIds(lv, x);
    }
  }

  lemma {:induction false} FreshRoot(lv: Stack, ps: Level, y: nat)
    requires Fresh(lv, ps) && y < |ps|
    ensures ps[y].id !in Ids(lv)
  {
    assert ps[y] in ps;
    if ps[y].id in Ids(lv) {
      var m, o := InIds(lv, ps[y].id);
      NewPage(lv, ps, m, o);
    }
  }

  lemma {:induction false} SplitRootShown(a: Nodes, pages: Pages, pages': Pages, lv: Stack, ps: Level, g: Pgid)
    requires OnlyRoot(a, pages, lv) && Pieces(Root(lv).inodes, ps) && Fresh(lv, ps) && g !in Ids(lv) && g !in IdsOf(ps)
    requires Written(pages, pages', ps, |lv| == 1)
    ensures ShownAll(map[g := NodeState(false, false, [], None, [], Heads(ps))], pages', SplitRoot(lv, ps, g))
  {
    var a', lv', t := map[g := NodeState(false, false, [], None, [], Heads(ps))], SplitRoot(lv, ps, g), |lv| - 1;
    forall y | 0 <= y < |ps| ensures ps[y].id !in Ids(lv) {
      FreshRoot(lv, ps, y);
    }
    forall m, o | 0 <= m < |lv'| && 0 <= o < |lv'[m]| ensures ShownAt(a', pages', lv', m, o) {
      if m < t {
        BelowRoot(a, pages, pages', lv, ps, m, o);
        IdsIn(lv, m, o);
      } else if m == t {
        assert ps[o] in ps;
        assert lv'[m][o] == ps[o];
      }
    }
  }

  lemma {:induction false} SplitRootStrict(a: Nodes, pages: Pages, pages': Pages, lv: Stack, ps: Level, g: Pgid)
    requires OnlyRoot(a, pages, lv) && Pieces(Root(lv).inodes, ps) && Fresh(lv, ps) && g !in Ids(lv) && g !in IdsOf(ps)
    requires Written(pages, pages', ps, |lv| == 1)
    ensures Strict(map[g := NodeState(false, false, [], None, [], Heads(ps))], pages', SplitRoot(lv, ps, g))
  {
    var a', lv', t := map[g := NodeState(false, false, [], None, [], Heads(ps))], SplitRoot(lv, ps, g), |lv| - 1;
    forall y | 0 <= y < |ps| ensures ps[y].id !in Ids(lv) {
      FreshRoot(lv, ps, y);
    }
    forall m, o | 0 < m < |lv'| && 0 <= o < |lv'[m]| ensures StrictAt(a', pages', lv', m, o) {
      forall e | 0 <= e < |lv'[m][o].inodes| ensures EntryStrict(a', pages', lv'[m][o].inodes[e]) {
        if m < t {
          StrictBelow(a, pages, pages', lv, ps, m, o, e);
        } else if m == t {
          FlatAt(ps, o, e);
          StrictBelow(a, pages, pages', lv, ps, t, 0, Off(ps, o) + e);
        } else {
          assert lv'[m][o].inodes[e] == Head(ps[e]);
        }
      }
    }
  }

  // ---- how full the pages are ----

  /** Pieces of a branch have two entries or more. */
  ghost predicate Thick(ps: Level, k: nat)
  {
    k > 0 ==> forall m :: 0 <= m < |ps| ==> |ps[m].inodes| >= 2
  }

  lemma {:induction false} SpliceBalanced(lv: Stack, k: nat, j: nat, q: nat, i: nat, ps: Level)
    requires Balanced(lv) && Above(lv, k, j, q, i) && Pieces(lv[k][j].inodes, ps) && Thick(ps, k)
    ensures Balanced(SpliceNode(lv, k, j, q, i, ps))
  {
    var lv': Stack := SpliceNode(lv, k, j, q, i, ps);
    forall m, x | 0 <= m < |lv'| && 0 <= x < |lv'[m]|
      ensures if m > 0 then |lv'[m][x].inodes| >= 2 else lv'[m][x].inodes != []
    {
      SpliceAt(lv, k, j, q, i, ps, m, x);
      if m == k + 1 && x == q {
        SplicedIndex(lv[m][q].inodes, i, Heads(ps));
      }
    }
  }

  lemma {:induction false} SplitRootBalanced(lv: Stack, ps: Level, g: Pgid)
    requires Balanced(lv) && WF(lv) && Pieces(Root(lv).inodes, ps) && Thick(ps, |lv| - 1) && |ps| >= 2
    ensures Balanced(SplitRoot(lv, ps, g))
  {
  }

  lemma {:induction false} RenamedBalanced(lv: Stack, id: Pgid)
    requires Balanced(lv) && WF(lv)
    ensures Balanced(Renamed(lv, id))
  {
  }
}
