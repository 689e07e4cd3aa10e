/** The nodes of a bucket that a write transaction has materialised over the pages of its tree,
    as values, and the effect on them of materialising, deleting, merging and collapsing. */
module Arena {
  import opened Options
  import opened Bytes
  import opened Pgids
  import opened Levels
  import opened Tree

  datatype Page = Page(isLeaf: bool, inodes: seq<Inode>)

  /** What a materialised node holds. Links to other nodes are by the page they were read from. */
  datatype NodeState = NodeState(isLeaf: bool, unbalanced: bool, key: Key, parent: Option<Pgid>,
                                 children: seq<Pgid>, inodes: seq<Inode>)

  type Nodes = map<Pgid, NodeState>
  type Pages = map<Pgid, Page>

  // ---- node.put and node.del on the entries of one node ----

  /** The first entry not before the key, as sort.Search finds it. */
  ghost function Search(xs: seq<Inode>, key: Key): (r: nat)
    ensures r <= |xs| && (r < |xs| ==> !Lt(xs[r].key, key))
    ensures forall i :: 0 <= i < r ==> Lt(xs[i].key, key)
  {
    if xs == [] || !Lt(xs[0].key, key) then 0 else 1 + Search(xs[1..], key)
  }

  ghost predicate Found(xs: seq<Inode>, key: Key)
  {
    var s := Search(xs, key);
    s < |xs| && xs[s].key == key
  }

  ghost function PutInode(xs: seq<Inode>, oldKey: Key, x: Inode): seq<Inode>
  {
    var s := Search(xs, oldKey);
    if Found(xs, oldKey) then xs[s := x] else xs[..s] + [x] + xs[s..]
  }

  ghost function DelInode(xs: seq<Inode>, key: Key): seq<Inode>
  {
    if Found(xs, key) then RemoveAt(xs, Search(xs, key)) else xs
  }

  /** In ascending entries a key is found where it is. */
  lemma {:induction false} SearchAt(xs: seq<Inode>, i: nat)
    requires Asc(xs) && i < |xs|
    ensures Search(xs, xs[i].key) == i && Found(xs, xs[i].key)
  {
    var s := Search(xs, xs[i].key);
    RankInjective(xs[s].key, xs[i].key);
  }

  // ---- how materialised nodes and pages make up a tree ----

  /** The node r of the tree is what its materialised node, or else its page, holds. */
  ghost predicate Shown(a: Nodes, pages: Pages, r: Rec, leaf: bool)
  {
    if r.id in a then a[r.id].inodes == r.inodes && a[r.id].isLeaf == leaf
    else r.id in pages && pages[r.id] == Page(leaf, r.inodes)
  }

  ghost predicate ShownAt(a: Nodes, pages: Pages, lv: Stack, k: nat, j: nat)
    requires k < |lv| && j < |lv[k]|
  {
    Shown(a, pages, lv[k][j], k == 0)
  }

  ghost predicate ShownAll(a: Nodes, pages: Pages, lv: Stack)
  {
    forall k, j :: 0 <= k < |lv| && 0 <= j < |lv[k]| ==> ShownAt(a, pages, lv, k, j)
  }

  ghost predicate HasEntry(xs: seq<Inode>, id: Pgid, key: Key)
  {
    exists i :: 0 <= i < |xs| && xs[i].pgid == id && xs[i].key == key
  }

  /** Every materialised node but the root has a materialised parent, which keeps an entry for it
      under the node's own key. */
  ghost predicate LinkOk(a: Nodes, root: Pgid, id: Pgid)
    requires id in a
  {
    if id == root then a[id].parent.None? else (
      && a[id].parent.Some? && a[id].parent.value in a
      && HasEntry(a[a[id].parent.value].inodes, id, a[id].key))
  }

  ghost predicate Linked(a: Nodes, root: Pgid)
  {
    forall id {:trigger LinkOk(a, root, id)} :: id in a ==> LinkOk(a, root, id)
  }

  ghost predicate Distinct<T>(s: seq<T>)
  {
    forall i, j :: 0 <= i < j < |s| ==> s[i] != s[j]
  }

  /** The child list of a node names each materialised child once. */
  ghost predicate ListOk(a: Nodes, p: Pgid)
    requires p in a
  {
    && Distinct(a[p].children)
    && (forall c :: c in a[p].children ==> c in a && a[c].parent == Some(p))
    && (forall c :: c in a && a[c].parent == Some(p) ==> c in a[p].children)
  }

  ghost predicate Listed(a: Nodes)
  {
    forall id {:trigger ListOk(a, id)} :: id in a ==> ListOk(a, id)
  }

  /** An entry of a branch whose child is still a page has that page's first key. */
  ghost predicate EntryStrict(a: Nodes, pages: Pages, x: Inode)
  {
    x.pgid !in a ==> x.pgid in pages && pages[x.pgid].inodes != [] && pages[x.pgid].inodes[0].key == x.key
  }

  ghost predicate StrictAt(a: Nodes, pages: Pages, lv: Stack, k: nat, j: nat)
    requires k < |lv| && j < |lv[k]|
  {
    forall i :: 0 <= i < |lv[k][j].inodes| ==> EntryStrict(a, pages, lv[k][j].inodes[i])
  }

  ghost predicate Strict(a: Nodes, pages: Pages, lv: Stack)
  {
    forall k, j :: 0 < k < |lv| && 0 <= j < |lv[k]| ==> StrictAt(a, pages, lv, k, j)
  }

  /** Leaf entries point nowhere. */
  ghost predicate Pointless(xs: seq<Inode>)
  {
    forall i :: 0 <= i < |xs| ==> xs[i].pgid == 0
  }

  /** Page 0 is only ever the root of an inline bucket. */
  ghost predicate LeafPgids(lv: Stack)
    requires |lv| > 0
  {
    Pointless(Flat(lv[0])) && (|lv| > 1 ==> 0 !in Ids(lv))
  }

  ghost predicate Tied(a: Nodes, pages: Pages, lv: Stack)
  {
    && WF(lv) && LeafPgids(lv)
    && ShownAll(a, pages, lv) && a.Keys <= Ids(lv)
    && Linked(a, Root(lv).id) && Listed(a) && Strict(a, pages, lv)
  }

  lemma {:induction false} InIds(lv: Stack, id: Pgid) returns (k: nat, j: nat)
    requires id in Ids(lv)
    ensures k < |lv| && j < |lv[k]| && lv[k][j].id == id
  {
    var r;
    k, r :| 0 <= k < |lv| && r in lv[k] && r.id == id;
    j :| 0 <= j < |lv[k]| && lv[k][j] == r;
  }

  lemma {:induction false} IdsIn(lv: Stack, k: nat, j: nat)
    requires k < |lv| && j < |lv[k]|
    ensures lv[k][j].id in Ids(lv)
  {
    assert lv[k][j] in lv[k];
  }

  /** Where a materialised node is in the tree, and its entry in its parent. */
  lemma {:induction false} Place(a: Nodes, pages: Pages, lv: Stack, id: Pgid) returns (k: nat, j: nat)
    requires WF(lv) && ShownAll(a, pages, lv) && id in a && id in Ids(lv)
    ensures k < |lv| && j < |lv[k]| && lv[k][j].id == id
    ensures a[id].inodes == lv[k][j].inodes && a[id].isLeaf == (k == 0)
    ensures id == Root(lv).id <==> k == |lv| - 1
  {
    k, j := InIds(lv, id);
    assert ShownAt(a, pages, lv, k, j);
    if id == Root(lv).id {
      Unique(lv, k, j, |lv| - 1, 0);
    }
  }

  lemma {:induction false} PlaceEntry(lv: Stack, m: nat, q: nat, i: nat) returns (j: nat)
    requires WF(lv) && 0 < m < |lv| && q < |lv[m]| && i < |lv[m][q].inodes|
    ensures Above(lv, m - 1, j, q, i) && lv[m - 1][j].id == lv[m][q].inodes[i].pgid
  {
    FlatAt(lv[m], q, i);
    j := Off(lv[m], q) + i;
    ChildIs(lv, m - 1, j);
  }

  /** Entry p of a level points to node p of the level below. */
  lemma {:induction false} ChildIs(lv: Stack, k: nat, p: nat)
    requires WF(lv) && k + 1 < |lv| && p < |Flat(lv[k + 1])|
    ensures p < |lv[k]| && lv[k][p].id == Flat(lv[k + 1])[p].pgid
  {
    SepsBelow(lv, k);
  }

  /** A node with an entry that points at another node of the tree is not a leaf. */
  lemma {:induction false} NotLeaf(lv: Stack, q: nat, i: nat, id: Pgid)
    requires WF(lv) && LeafPgids(lv) && q < |lv[0]| && i < |lv[0][q].inodes|
    requires lv[0][q].inodes[i].pgid == id && id in Ids(lv)
    ensures id == Root(lv).id
  {
    FlatAt(lv[0], q, i);
    if |lv| == 1 {
      var k, j := InIds(lv, id);
    }
  }

  lemma {:induction false} PlaceChild(a: Nodes, pages: Pages, lv: Stack, id: Pgid)
    returns (k: nat, j: nat, q: nat, i: nat)
    requires Tied(a, pages, lv) && id in a && id != Root(lv).id
    ensures a[id].parent.Some? && a[id].parent.value in a && !a[a[id].parent.value].isLeaf
    ensures Above(lv, k, j, q, i) && lv[k][j].id == id && lv[k + 1][q].id == a[id].parent.value
    ensures lv[k + 1][q].inodes == a[a[id].parent.value].inodes && lv[k + 1][q].inodes[i].key == a[id].key
    ensures lv[k + 1][q].inodes[i].pgid == id
    ensures a[id].inodes == lv[k][j].inodes && a[id].isLeaf == (k == 0)
  {
    assert LinkOk(a, Root(lv).id, id);
    var p := a[id].parent.value;
    i :| 0 <= i < |a[p].inodes| && a[p].inodes[i].pgid == id && a[p].inodes[i].key == a[id].key;
    var m: nat;
    m, q := Place(a, pages, lv, p);
    assert m > 0 by {
      if m == 0 {
        NotLeaf(lv, q, i, id);
      }
    }
    k := m - 1;
    j := PlaceEntry(lv, m, q, i);
    assert ShownAt(a, pages, lv, k, j);
  }

  // ---- rebalance: the right of two siblings moves into the left one ----

  /** The materialised nodes among the children of some entries, in order. */
  ghost function Materialised(a: Nodes, xs: seq<Inode>): seq<Pgid>
  {
    if xs == [] then [] else (
      Materialised(a, xs[..|xs| - 1]) + (if xs[|xs| - 1].pgid in a then [xs[|xs| - 1].pgid] else []))
  }

  ghost predicate PointsTo(xs: seq<Inode>, id: Pgid)
  {
    exists i :: 0 <= i < |xs| && xs[i].pgid == id
  }

  /** A sequence without the first occurrence of x. */
  function Without<T(==)>(s: seq<T>, x: T): seq<T>
  {
    if s == [] then [] else if s[0] == x then s[1..] else [s[0]] + Without(s[1..], x)
  }

  lemma {:induction false} WithoutIn<T>(s: seq<T>, x: T)
    requires Distinct(s)
    ensures Distinct(Without(s, x)) && forall y :: y in Without(s, x) <==> y in s && y != x
    ensures forall i :: 0 <= i < |Without(s, x)| ==> Without(s, x)[i] in s && Without(s, x)[i] != x
  {
    if s != [] {
      var r, t := s[1..], Without(s[1..], x);
      assert s == [s[0]] + r;
      assert Distinct(r) by {
        assert forall i :: 0 <= i < |r| ==> r[i] == s[i + 1];
      }
      WithoutIn(r, x);
      assert s[0] !in r;
      if s[0] != x {
        assert forall y :: y in [s[0]] + t <==> y == s[0] || y in t;
      }
    }
  }

  lemma {:induction false} MaterialisedIn(a: Nodes, xs: seq<Inode>)
    ensures forall id :: id in Materialised(a, xs) <==> id in a && PointsTo(xs, id)
    ensures (forall i, j :: 0 <= i < j < |xs| ==> xs[i].pgid != xs[j].pgid) ==> Distinct(Materialised(a, xs))
  {
    if xs != [] {
      var ys, x := xs[..|xs| - 1], xs[|xs| - 1];
      MaterialisedIn(a, ys);
      forall id ensures PointsTo(xs, id) <==> PointsTo(ys, id) || id == x.pgid {
        if PointsTo(ys, id) {
          var i :| 0 <= i < |ys| && ys[i].pgid == id;
          assert xs[i].pgid == id;
        }
        if PointsTo(xs, id) && id != x.pgid {
          var i :| 0 <= i < |xs| && xs[i].pgid == id;
          assert ys[i].pgid == id;
        }
      }
    }
  }

  lemma {:induction false} MaterialisedLeaf(a: Nodes, xs: seq<Inode>)
    requires forall i :: 0 <= i < |xs| ==> xs[i].pgid == 0
    ensures 0 !in a ==> Materialised(a, xs) == []
  {
    if xs != [] {
      MaterialisedLeaf(a, xs[..|xs| - 1]);
    }
  }

  /** Node l takes over the entries and children of its right sibling r, which leaves their
      parent p. */
  ghost function Join(a: Nodes, l: Pgid, r: Pgid, p: Pgid): Nodes
    requires l in a && r in a && p in a
  {
    map id | id in a && id != r ::
      if id == l then a[l].(inodes := a[l].inodes + a[r].inodes,
                            children := a[l].children + Materialised(a, a[r].inodes))
      else if id == p then a[p].(inodes := DelInode(a[p].inodes, a[r].key), unbalanced := true,
                                 children := Without(a[p].children, r))
      else if a[id].parent == Some(r) then a[id].(parent := Some(l))
      else a[id]
  }

  /** Two siblings in the tree: entries i - 1 and i of node q of the level above. */
  ghost predicate Siblings(a: Nodes, pages: Pages, lv: Stack, l: Pgid, r: Pgid, p: Pgid, k: nat, j: nat, q: nat, i: nat)
  {
    && Tied(a, pages, lv) && l in a && r in a && p in a && i > 0
    && Above(lv, k, j + 1, q, i) && lv[k][j].id == l && lv[k][j + 1].id == r && lv[k + 1][q].id == p
    && lv[k + 1][q].inodes[i].key == a[r].key && a[r].parent == Some(p) && a[l].parent == Some(p)
  }

  lemma {:induction false} ShownIs(a: Nodes, pages: Pages, lv: Stack, k: nat, j: nat, id: Pgid)
    requires ShownAll(a, pages, lv) && k < |lv| && j < |lv[k]| && lv[k][j].id == id && id in a
    ensures a[id].inodes == lv[k][j].inodes && a[id].isLeaf == (k == 0)
  {
    assert ShownAt(a, pages, lv, k, j);
  }

  lemma {:induction false} SiblingShapes(a: Nodes, pages: Pages, lv: Stack, l: Pgid, r: Pgid, p: Pgid, k: nat, j: nat,
                                         q: nat, i: nat)
    requires Siblings(a, pages, lv, l, r, p, k, j, q, i)
    ensures l != r && l != p && r != p
    ensures a[l].inodes == lv[k][j].inodes && a[r].inodes == lv[k][j + 1].inodes && a[p].inodes == lv[k + 1][q].inodes
    ensures a[l].isLeaf == a[r].isLeaf == (k == 0) && !a[p].isLeaf
    ensures DelInode(a[p].inodes, a[r].key) == RemoveAt(a[p].inodes, i)
  {
    ShownIs(a, pages, lv, k, j, l);
    ShownIs(a, pages, lv, k, j + 1, r);
    ShownIs(a, pages, lv, k + 1, q, p);
    Differ(lv, k, j, k, j + 1);
    Differ(lv, k, j, k + 1, q);
    Differ(lv, k, j + 1, k + 1, q);
    assert Asc(lv[k + 1][q].inodes) by { assert LevelOk(lv, k + 1); }
    SearchAt(a[p].inodes, i);
  }

  lemma {:induction false} JoinShown(a: Nodes, pages: Pages, lv: Stack, l: Pgid, r: Pgid, p: Pgid, k: nat, j: nat,
                                     q: nat, i: nat)
    requires Siblings(a, pages, lv, l, r, p, k, j, q, i)
    ensures ShownAll(Join(a, l, r, p), pages, JoinNodes(lv, k, j, q, i))
  {
    SiblingShapes(a, pages, lv, l, r, p, k, j, q, i);
    var a', lv' := Join(a, l, r, p), JoinNodes(lv, k, j, q, i);
    forall m, n | 0 <= m < |lv'| && 0 <= n < |lv'[m]| ensures ShownAt(a', pages, lv', m, n) {
      var o := if m == k && n > j then n + 1 else n;
      JoinAt(lv, k, j, q, i, m, n);
      assert ShownAt(a, pages, lv, m, o);
      Differ(lv, m, o, k, j + 1);
      Differ(lv, m, o, k, j);
      Differ(lv, m, o, k + 1, q);
    }
  }

  /** The nodes of the joined tree, one by one. */
  lemma {:induction false} JoinAt(lv: Stack, k: nat, j: nat, q: nat, i: nat, m: nat, n: nat)
    requires Above(lv, k, j + 1, q, i) && m < |lv|
    requires var lv' := JoinNodes(lv, k, j, q, i); n < |lv'[m]|
    ensures var lv' := JoinNodes(lv, k, j, q, i);
            var o := if m == k && n > j then n + 1 else n;
            && o < |lv[m]| && lv'[m][n].id == lv[m][o].id
            && (m == k && n == j ==> lv'[m][n].inodes == lv[k][j].inodes + lv[k][j + 1].inodes)
            && (m == k + 1 && n == q ==> lv'[m][n].inodes == RemoveAt(lv[m][n].inodes, i))
            && (!(m == k && n == j) && !(m == k + 1 && n == q) ==> lv'[m][n] == lv[m][o])
  {
  }

  /** The materialised children of a node are the materialised nodes its entries point to. */
  lemma {:induction false} ChildrenOf(a: Nodes, pages: Pages, lv: Stack, id: Pgid, p: Pgid)
    requires Tied(a, pages, lv) && id in a && p in a
    ensures a[id].parent == Some(p) <==> PointsTo(a[p].inodes, id) && id != Root(lv).id
    ensures PointsTo(a[p].inodes, id) ==> id != Root(lv).id || |lv| == 1
  {
    assert LinkOk(a, Root(lv).id, id);
    if PointsTo(a[p].inodes, id) {
      var i' :| 0 <= i' < |a[p].inodes| && a[p].inodes[i'].pgid == id;
      var m, x := Place(a, pages, lv, p);
      if m == 0 {
        NotLeaf(lv, x, i', id);
        FlatAt(lv[0], x, i');
      } else {
        var j' := PlaceEntry(lv, m, x, i');
        if id == Root(lv).id {
          Unique(lv, m - 1, j', |lv| - 1, 0);
        } else {
          var k, j, q, i := PlaceChild(a, pages, lv, id);
          Unique(lv, k, j, m - 1, j');
          SameNode(lv[m], q, i, x, i');
        }
      }
    }
  }

  lemma {:induction false} ChildParent(a: Nodes, pages: Pages, lv: Stack, id: Pgid, p: Pgid)
    requires Tied(a, pages, lv) && id in a && p in a && !a[p].isLeaf && PointsTo(a[p].inodes, id)
    ensures a[id].parent == Some(p)
  {
    ChildrenOf(a, pages, lv, id, p);
    var k, j := Place(a, pages, lv, p);
  }

  lemma {:induction false} SameNode(l: Level, q: nat, i: nat, q': nat, i': nat)
    requires q < |l| && i < |l[q].inodes| && q' < |l| && i' < |l[q'].inodes|
    requires Off(l, q) + i == Off(l, q') + i'
    ensures q == q' && i == i'
  {
    if q < q' {
      FlatSplit(l, q);
      OffMono(l, q + 1, q');
    } else if q' < q {
      FlatSplit(l, q');
      OffMono(l, q' + 1, q);
    }
  }

  /** A parent is one level above its child. */
  lemma {:induction false} ParentLevel(a: Nodes, pages: Pages, lv: Stack, id: Pgid, k: nat, j: nat) returns (q: nat)
    requires Tied(a, pages, lv) && id in a && k < |lv| && j < |lv[k]| && lv[k][j].id == id && a[id].parent.Some?
    ensures k + 1 < |lv| && q < |lv[k + 1]| && lv[k + 1][q].id == a[id].parent.value
  {
    assert LinkOk(a, Root(lv).id, id);
    var k', j', i;
    k', j', q, i := PlaceChild(a, pages, lv, id);
    Unique(lv, k, j, k', j');
  }

  lemma {:induction false} SiblingParents(a: Nodes, pages: Pages, lv: Stack, l: Pgid, r: Pgid, p: Pgid, k: nat, j: nat,
                                          q: nat, i: nat)
    requires Siblings(a, pages, lv, l, r, p, k, j, q, i)
    ensures a[p].parent != Some(l) && a[p].parent != Some(r)
    ensures Root(lv).id != l && Root(lv).id != r
  {
    assert LinkOk(a, Root(lv).id, l) && LinkOk(a, Root(lv).id, r);
    if a[p].parent.Some? {
      var x := ParentLevel(a, pages, lv, p, k + 1, q);
      Differ(lv, k + 2, x, k, j);
      Differ(lv, k + 2, x, k, j + 1);
    }
  }

  lemma {:induction false} RemoveKeeps(xs: seq<Inode>, i: nat, id: Pgid, key: Key)
    requires i < |xs| && xs[i].pgid != id && HasEntry(xs, id, key)
    ensures HasEntry(RemoveAt(xs, i), id, key)
  {
    var m :| 0 <= m < |xs| && xs[m].pgid == id && xs[m].key == key;
    assert RemoveAt(xs, i)[if m < i then m else m - 1] == xs[m];
  }

  lemma {:induction false} AppendKeeps(xs: seq<Inode>, ys: seq<Inode>, id: Pgid, key: Key)
    requires HasEntry(xs, id, key) || HasEntry(ys, id, key)
    ensures HasEntry(xs + ys, id, key)
  {
    if HasEntry(xs, id, key) {
      var m :| 0 <= m < |xs| && xs[m].pgid == id && xs[m].key == key;
      assert (xs + ys)[m] == xs[m];
    } else {
      var m :| 0 <= m < |ys| && ys[m].pgid == id && ys[m].key == key;
      assert (xs + ys)[|xs| + m] == ys[m];
    }
  }

  lemma {:induction false} JoinLink(a: Nodes, pages: Pages, lv: Stack, l: Pgid, r: Pgid, p: Pgid, k: nat, j: nat,
                                    q: nat, i: nat, id: Pgid)
    requires Siblings(a, pages, lv, l, r, p, k, j, q, i) && id in a && id != r
    requires lv[k + 1][q].inodes[i].pgid == r
    ensures LinkOk(Join(a, l, r, p), Root(lv).id, id)
  {
    var a' := Join(a, l, r, p);
    SiblingShapes(a, pages, lv, l, r, p, k, j, q, i);
    SiblingParents(a, pages, lv, l, r, p, k, j, q, i);
    assert LinkOk(a, Root(lv).id, id);
    if id != Root(lv).id {
      var P := a[id].parent.value;
      if P == p {
        RemoveKeeps(a[p].inodes, i, id, a[id].key);
      } else if P == l || P == r {
        AppendKeeps(a[l].inodes, a[r].inodes, id, a[id].key);
      }
    }
  }

  lemma {:induction false} DistinctConcat<T>(s: seq<T>, t: seq<T>)
    requires Distinct(s) && Distinct(t) && forall x :: x in s ==> x !in t
    ensures Distinct(s + t) && forall x :: x in s + t <==> x in s || x in t
  {
    forall i, j | 0 <= i < j < |s + t| ensures (s + t)[i] != (s + t)[j] {
      if i < |s| <= j {
        assert s[i] in s && t[j - |s|] in t;
      }
    }
  }

  /** The materialised children of a node, read off its entries. */
  lemma {:induction false} MaterialisedChildren(a: Nodes, pages: Pages, lv: Stack, p: Pgid, k: nat, j: nat)
    requires Tied(a, pages, lv) && p in a && k < |lv| && j < |lv[k]| && lv[k][j].id == p && |lv| > 1
    ensures Distinct(Materialised(a, a[p].inodes))
    ensures forall c :: c in Materialised(a, a[p].inodes) <==> c in a && a[c].parent == Some(p)
  {
    var m := Materialised(a, a[p].inodes);
    ShownIs(a, pages, lv, k, j, p);
    MaterialisedIn(a, a[p].inodes);
    DistinctEntries(lv, k, j);
    forall c | c in a ensures c in m <==> a[c].parent == Some(p) {
      ChildrenOf(a, pages, lv, c, p);
    }
    if k == 0 {
      MaterialisedLeaf(a, a[p].inodes);
    }
  }

  lemma {:induction false} JoinList(a: Nodes, pages: Pages, lv: Stack, l: Pgid, r: Pgid, p: Pgid, k: nat, j: nat,
                                    q: nat, i: nat, id: Pgid)
    requires Siblings(a, pages, lv, l, r, p, k, j, q, i) && id in a && id != r
    ensures ListOk(Join(a, l, r, p), id)
  {
    SiblingParents(a, pages, lv, l, r, p, k, j, q, i);
    SiblingShapes(a, pages, lv, l, r, p, k, j, q, i);
    assert ListOk(a, id);
    if id == p {
      JoinListParent(a, l, r, p);
    } else if id == l {
      MaterialisedChildren(a, pages, lv, r, k, j + 1);
      JoinListLeft(a, l, r, p);
    } else {
      JoinListOther(a, l, r, p, id);
    }
  }

  lemma {:induction false} JoinListOther(a: Nodes, l: Pgid, r: Pgid, p: Pgid, id: Pgid)
    requires l in a && r in a && p in a && id in a && ListOk(a, id) && id != l && id != r && id != p
    requires l != r && l != p && r != p && a[r].parent == Some(p) && a[l].parent == Some(p) && a[p].parent != Some(r)
    ensures ListOk(Join(a, l, r, p), id)
  {
  }

  lemma {:induction false} JoinListParent(a: Nodes, l: Pgid, r: Pgid, p: Pgid)
    requires l in a && r in a && p in a && ListOk(a, p) && l != r && l != p && r != p && a[r].parent == Some(p)
    requires a[p].parent != Some(r)
    ensures ListOk(Join(a, l, r, p), p)
  {
    WithoutIn(a[p].children, r);
  }

  lemma {:induction false} JoinListLeft(a: Nodes, l: Pgid, r: Pgid, p: Pgid)
    requires l in a && r in a && p in a && ListOk(a, l) && l != r && l != p && r != p
    requires a[r].parent == Some(p) && a[l].parent == Some(p) && a[p].parent != Some(r) && a[p].parent != Some(l)
    requires var m := Materialised(a, a[r].inodes);
      Distinct(m) && forall c :: c in m <==> c in a && a[c].parent == Some(r)
    ensures ListOk(Join(a, l, r, p), l)
  {
    DistinctConcat(a[l].children, Materialised(a, a[r].inodes));
  }

  /** No two entries of a branch point to the same child. */
  lemma {:induction false} DistinctEntries(lv: Stack, k: nat, j: nat)
    requires WF(lv) && LeafPgids(lv) && k < |lv| && j < |lv[k]|
    ensures k > 0 ==> forall m, n :: 0 <= m < n < |lv[k][j].inodes| ==>
      lv[k][j].inodes[m].pgid != lv[k][j].inodes[n].pgid
    ensures k == 0 ==> forall m :: 0 <= m < |lv[k][j].inodes| ==> lv[k][j].inodes[m].pgid == 0
  {
    if k == 0 {
      forall m | 0 <= m < |lv[0][j].inodes| ensures lv[0][j].inodes[m].pgid == 0 {
        FlatAt(lv[0], j, m);
      }
    } else {
      SepsBelow(lv, k - 1);
      assert LevelOk(lv, k - 1);
      DistinctPgids(lv[k], lv[k - 1], j);
    }
  }

  lemma {:induction false} DistinctPgids(u: Level, l: Level, j: nat)
    requires |Flat(u)| == |l| && NoDup(l) && j < |u| && forall p :: 0 <= p < |l| ==> Flat(u)[p].pgid == l[p].id
    ensures forall m, n :: 0 <= m < n < |u[j].inodes| ==> u[j].inodes[m].pgid != u[j].inodes[n].pgid
  {
    forall m, n | 0 <= m < n < |u[j].inodes| ensures u[j].inodes[m].pgid != u[j].inodes[n].pgid {
      FlatAt(u, j, m);
      FlatAt(u, j, n);
    }
  }

  lemma {:induction false} JoinIds(lv: Stack, k: nat, j: nat, q: nat, i: nat)
    requires WF(lv) && Above(lv, k, j + 1, q, i)
    ensures Ids(JoinNodes(lv, k, j, q, i)) == Ids(lv) - {lv[k][j + 1].id}
  {
    var lv' := JoinNodes(lv, k, j, q, i);
    forall id | id in Ids(lv') ensures id in Ids(lv) && id != lv[k][j + 1].id {
      var m, n := InIds(lv', id);
      JoinAt(lv, k, j, q, i, m, n);
      var o := if m == k && n > j then n + 1 else n;
      IdsIn(lv, m, o);
      Differ(lv, m, o, k, j + 1);
    }
    forall id | id in Ids(lv) && id != lv[k][j + 1].id ensures id in Ids(lv') {
      var m, o := InIds(lv, id);
      var n := if m == k && o > j then o - 1 else o;
      JoinAt(lv, k, j, q, i, m, n);
      IdsIn(lv', m, n);
    }
  }

  /** Entries of the joined tree were entries before, other than that of the node that went. */
  lemma {:induction false} JoinEntry(lv: Stack, k: nat, j: nat, q: nat, i: nat, m: nat, n: nat, e: nat)
    returns (o: nat, f: nat)
    requires Above(lv, k, j + 1, q, i) && m < |lv|
    requires var lv' := JoinNodes(lv, k, j, q, i); n < |lv'[m]| && e < |lv'[m][n].inodes|
    ensures o < |lv[m]| && f < |lv[m][o].inodes|
    ensures JoinNodes(lv, k, j, q, i)[m][n].inodes[e] == lv[m][o].inodes[f]
    ensures !(m == k + 1 && o == q && f == i)
  {
    JoinAt(lv, k, j, q, i, m, n);
    o, f := if m == k && n > j then n + 1 else n, e;
    if m == k && n == j && e >= |lv[k][j].inodes| {
      o, f := j + 1, e - |lv[k][j].inodes|;
    } else if m == k + 1 && n == q {
      f := if e < i then e else e + 1;
    }
  }

  lemma {:induction false} JoinStrict(a: Nodes, pages: Pages, lv: Stack, l: Pgid, r: Pgid, p: Pgid, k: nat, j: nat,
                                      q: nat, i: nat)
    requires WF(lv) && Strict(a, pages, lv) && l in a && r in a && p in a
    requires Above(lv, k, j + 1, q, i) && lv[k][j + 1].id == r
    ensures Strict(Join(a, l, r, p), pages, JoinNodes(lv, k, j, q, i))
  {
    var a', lv' := Join(a, l, r, p), JoinNodes(lv, k, j, q, i);
    forall m, n | 0 < m < |lv'| && 0 <= n < |lv'[m]| ensures StrictAt(a', pages, lv', m, n) {
      forall e | 0 <= e < |lv'[m][n].inodes| ensures EntryStrict(a', pages, lv'[m][n].inodes[e]) {
        var o, f := JoinEntry(lv, k, j, q, i, m, n, e);
        assert StrictAt(a, pages, lv, m, o);
        assert EntryStrict(a, pages, lv[m][o].inodes[f]);
        OtherEntry(lv, m, o, f, k, j, q, i, r);
      }
    }
  }

  /** Only the parent of a node has an entry for it. */
  lemma {:induction false} OtherEntry(lv: Stack, m: nat, o: nat, e: nat, k: nat, j: nat, q: nat, i: nat, r: Pgid)
    requires WF(lv) && 0 < m < |lv| && o < |lv[m]| && e < |lv[m][o].inodes|
    requires Above(lv, k, j + 1, q, i) && lv[k][j + 1].id == r
    ensures lv[m][o].inodes[e].pgid == r ==> m == k + 1 && o == q && e == i
  {
    if lv[m][o].inodes[e].pgid == r {
      var j' := PlaceEntry(lv, m, o, e);
      Unique(lv, m - 1, j', k, j + 1);
      SameNode(lv[m], o, e, q, i);
    }
  }

  /** Merging two siblings keeps the materialised nodes in step with the tree. */
  lemma {:induction false} JoinTied(a: Nodes, pages: Pages, lv: Stack, l: Pgid, r: Pgid, p: Pgid, k: nat, j: nat,
                                    q: nat, i: nat)
    requires Siblings(a, pages, lv, l, r, p, k, j, q, i) && lv[k + 1][q].inodes[i].pgid == r
    ensures Tied(Join(a, l, r, p), pages, JoinNodes(lv, k, j, q, i))
    ensures Contents(JoinNodes(lv, k, j, q, i)) == Contents(lv)
    ensures Ids(JoinNodes(lv, k, j, q, i)) == Ids(lv) - {r}
    ensures Root(JoinNodes(lv, k, j, q, i)).id == Root(lv).id
  {
    var a', lv' := Join(a, l, r, p), JoinNodes(lv, k, j, q, i);
    assert WF(lv') && Contents(lv') == Contents(lv) by { JoinNodesWF(lv, k, j, q, i); }
    assert Ids(lv') == Ids(lv) - {r} by { JoinIds(lv, k, j, q, i); }
    JoinShown(a, pages, lv, l, r, p, k, j, q, i);
    JoinStrict(a, pages, lv, l, r, p, k, j, q, i);
    assert Linked(a', Root(lv').id) by {
      forall id | id in a' ensures LinkOk(a', Root(lv').id, id) {
        JoinLink(a, pages, lv, l, r, p, k, j, q, i, id);
      }
    }
    assert Listed(a') by {
      forall id | id in a' ensures ListOk(a', id) {
        JoinList(a, pages, lv, l, r, p, k, j, q, i, id);
      }
    }
  }

  // ---- rebalance: an empty leaf is removed ----

  ghost function Drop(a: Nodes, n: Pgid, p: Pgid): Nodes
    requires n in a && p in a
  {
    map id | id in a && id != n ::
      if id == p then a[p].(inodes := DelInode(a[p].inodes, a[n].key), unbalanced := true,
                            children := Without(a[p].children, n))
      else a[id]
  }

  /** An empty leaf n in the tree, with a parent p that has other children. */
  ghost predicate EmptyLeaf(a: Nodes, pages: Pages, lv: Stack, n: Pgid, p: Pgid, j: nat, q: nat, i: nat)
  {
    && Tied(a, pages, lv) && n in a && p in a && a[n].inodes == []
    && Above(lv, 0, j, q, i) && lv[0][j].id == n && lv[1][q].id == p && |lv[1][q].inodes| > 1
    && lv[1][q].inodes[i].key == a[n].key && lv[1][q].inodes[i].pgid == n && a[n].parent == Some(p)
  }

  lemma {:induction false} DropAt(lv: Stack, j: nat, q: nat, i: nat, m: nat, n: nat)
    requires Above(lv, 0, j, q, i) && m < |lv|
    requires var lv' := DropLeaf(lv, j, q, i); n < |lv'[m]|
    ensures var lv' := DropLeaf(lv, j, q, i);
            var o := if m == 0 && n >= j then n + 1 else n;
            && o < |lv[m]| && lv'[m][n].id == lv[m][o].id && !(m == 0 && o == j)
            && (m == 1 && n == q ==> lv'[m][n].inodes == RemoveAt(lv[m][n].inodes, i))
            && (!(m == 1 && n == q) ==> lv'[m][n] == lv[m][o])
  {
  }

  lemma {:induction false} DropShapes(a: Nodes, pages: Pages, lv: Stack, n: Pgid, p: Pgid, j: nat, q: nat, i: nat)
    requires EmptyLeaf(a, pages, lv, n, p, j, q, i)
    ensures n != p && lv[0][j].inodes == [] && a[p].inodes == lv[1][q].inodes && !a[p].isLeaf
    ensures DelInode(a[p].inodes, a[n].key) == RemoveAt(a[p].inodes, i)
    ensures forall id :: id in a ==> a[id].parent != Some(n)
  {
    ShownIs(a, pages, lv, 0, j, n);
    ShownIs(a, pages, lv, 1, q, p);
    assert Asc(lv[1][q].inodes) by { assert LevelOk(lv, 1); }
    SearchAt(a[p].inodes, i);
    forall id | id in a ensures a[id].parent != Some(n) {
      ChildrenOf(a, pages, lv, id, n);
    }
  }

  lemma {:induction false} DropIds(lv: Stack, j: nat, q: nat, i: nat)
    requires WF(lv) && Above(lv, 0, j, q, i)
    ensures Ids(DropLeaf(lv, j, q, i)) == Ids(lv) - {lv[0][j].id}
  {
    var lv' := DropLeaf(lv, j, q, i);
    forall id | id in Ids(lv') ensures id in Ids(lv) && id != lv[0][j].id {
      var m, n := InIds(lv', id);
      DropAt(lv, j, q, i, m, n);
      var o := if m == 0 && n >= j then n + 1 else n;
      IdsIn(lv, m, o);
      Differ(lv, m, o, 0, j);
    }
    forall id | id in Ids(lv) && id != lv[0][j].id ensures id in Ids(lv') {
      var m, o := InIds(lv, id);
      var n := if m == 0 && o > j then o - 1 else o;
      DropAt(lv, j, q, i, m, n);
      IdsIn(lv', m, n);
    }
  }

  lemma {:induction false} DropShown(a: Nodes, pages: Pages, lv: Stack, n: Pgid, p: Pgid, j: nat, q: nat, i: nat)
    requires EmptyLeaf(a, pages, lv, n, p, j, q, i)
    ensures ShownAll(Drop(a, n, p), pages, DropLeaf(lv, j, q, i))
  {
    DropShapes(a, pages, lv, n, p, j, q, i);
    var a', lv' := Drop(a, n, p), DropLeaf(lv, j, q, i);
    forall m, x | 0 <= m < |lv'| && 0 <= x < |lv'[m]| ensures ShownAt(a', pages, lv', m, x) {
      DropAt(lv, j, q, i, m, x);
      var o := if m == 0 && x >= j then x + 1 else x;
      assert ShownAt(a, pages, lv, m, o);
      Differ(lv, m, o, 0, j);
      Differ(lv, m, o, 1, q);
    }
  }

  lemma {:induction false} DropStrict(a: Nodes, pages: Pages, lv: Stack, n: Pgid, p: Pgid, j: nat, q: nat, i: nat)
    requires EmptyLeaf(a, pages, lv, n, p, j, q, i)
    ensures Strict(Drop(a, n, p), pages, DropLeaf(lv, j, q, i))
  {
    var a', lv' := Drop(a, n, p), DropLeaf(lv, j, q, i);
    forall m, x | 0 < m < |lv'| && 0 <= x < |lv'[m]| ensures StrictAt(a', pages, lv', m, x) {
      DropAt(lv, j, q, i, m, x);
      assert StrictAt(a, pages, lv, m, x);
      forall e | 0 <= e < |lv'[m][x].inodes| ensures EntryStrict(a', pages, lv'[m][x].inodes[e]) {
        var f := if m == 1 && x == q && e >= i then e + 1 else e;
        assert lv'[m][x].inodes[e] == lv[m][x].inodes[f];
        assert EntryStrict(a, pages, lv[m][x].inodes[f]);
        OnlyEntry(lv, m, x, f, 0, j, q, i);
      }
    }
  }

  /** Only the parent of a node has an entry for it. */
  lemma {:induction false} OnlyEntry(lv: Stack, m: nat, o: nat, e: nat, k: nat, j: nat, q: nat, i: nat)
    requires WF(lv) && 0 < m < |lv| && o < |lv[m]| && e < |lv[m][o].inodes|
    requires Above(lv, k, j, q, i)
    ensures lv[m][o].inodes[e].pgid == lv[k][j].id ==> m == k + 1 && o == q && e == i
  {
    if lv[m][o].inodes[e].pgid == lv[k][j].id {
      var j' := PlaceEntry(lv, m, o, e);
      Unique(lv, m - 1, j', k, j);
      SameNode(lv[m], o, e, q, i);
    }
  }

  lemma {:induction false} DropLink(a: Nodes, pages: Pages, lv: Stack, n: Pgid, p: Pgid, j: nat, q: nat, i: nat,
                                    id: Pgid)
    requires EmptyLeaf(a, pages, lv, n, p, j, q, i) && id in a && id != n
    ensures LinkOk(Drop(a, n, p), Root(lv).id, id)
  {
    DropShapes(a, pages, lv, n, p, j, q, i);
    assert LinkOk(a, Root(lv).id, id);
    if id != Root(lv).id && a[id].parent == Some(p) {
      RemoveKeeps(a[p].inodes, i, id, a[id].key);
    }
  }

  lemma {:induction false} DropList(a: Nodes, pages: Pages, lv: Stack, n: Pgid, p: Pgid, j: nat, q: nat, i: nat,
                                    id: Pgid)
    requires EmptyLeaf(a, pages, lv, n, p, j, q, i) && id in a && id != n
    ensures ListOk(Drop(a, n, p), id)
  {
    DropShapes(a, pages, lv, n, p, j, q, i);
    assert ListOk(a, id);
    if id == p {
      WithoutIn(a[p].children, n);
    }
  }

  /** Removing an empty leaf keeps the materialised nodes in step with the tree. */
  lemma {:induction false} DropTied(a: Nodes, pages: Pages, lv: Stack, n: Pgid, p: Pgid, j: nat, q: nat, i: nat)
    requires EmptyLeaf(a, pages, lv, n, p, j, q, i)
    ensures Tied(Drop(a, n, p), pages, DropLeaf(lv, j, q, i))
    ensures Contents(DropLeaf(lv, j, q, i)) == Contents(lv)
    ensures Ids(DropLeaf(lv, j, q, i)) == Ids(lv) - {n}
    ensures Root(DropLeaf(lv, j, q, i)).id == Root(lv).id
  {
    var a', lv' := Drop(a, n, p), DropLeaf(lv, j, q, i);
    assert WF(lv') && Contents(lv') == Contents(lv) by {
      DropShapes(a, pages, lv, n, p, j, q, i);
      DropLeafWF(lv, j, q, i);
    }
    assert Ids(lv') == Ids(lv) - {n} by { DropIds(lv, j, q, i); }
    DropShown(a, pages, lv, n, p, j, q, i);
    DropStrict(a, pages, lv, n, p, j, q, i);
    assert Linked(a', Root(lv').id) && Listed(a') by {
      forall id | id in a' ensures LinkOk(a', Root(lv').id, id) && ListOk(a', id) {
        DropLink(a, pages, lv, n, p, j, q, i, id);
        DropList(a, pages, lv, n, p, j, q, i, id);
      }
    }
  }

  // ---- rebalance: a root with one child takes its place ----

  ghost function Collapse(a: Nodes, root: Pgid, c: Pgid): Nodes
    requires root in a && c in a
  {
    map id | id in a && id != c ::
      if id == root then a[root].(isLeaf := a[c].isLeaf, inodes := a[c].inodes, children := a[c].children)
      else if a[id].parent == Some(c) then a[id].(parent := Some(root))
      else a[id]
  }

  ghost predicate SingleChild(a: Nodes, pages: Pages, lv: Stack, c: Pgid)
  {
    && Tied(a, pages, lv) && Root(lv).id in a && c in a && |lv| > 1
    && |Root(lv).inodes| == 1 && Root(lv).inodes[0].pgid == c
  }

  lemma {:induction false} CollapseShapes(a: Nodes, pages: Pages, lv: Stack, c: Pgid)
    requires SingleChild(a, pages, lv, c)
    ensures |lv[|lv| - 2]| == 1 && lv[|lv| - 2][0].id == c && c != Root(lv).id && a[c].parent == Some(Root(lv).id)
    ensures a[c].inodes == lv[|lv| - 2][0].inodes && a[c].isLeaf == (|lv| == 2)
    ensures forall id :: id in a && a[id].parent == Some(Root(lv).id) ==> id == c
  {
    var r := Root(lv).id;
    OnlyChild(lv);
    ShownIs(a, pages, lv, |lv| - 2, 0, c);
    ShownIs(a, pages, lv, |lv| - 1, 0, r);
    Differ(lv, |lv| - 2, 0, |lv| - 1, 0);
    assert a[r].inodes == Root(lv).inodes;
    ChildrenOf(a, pages, lv, c, r);
    forall id | id in a && a[id].parent == Some(r) ensures id == c {
      ChildrenOf(a, pages, lv, id, r);
    }
  }

  lemma {:induction false} CollapseAt(lv: Stack, m: nat, n: nat)
    requires |lv| > 1 && |lv[|lv| - 1]| == 1 && |lv[|lv| - 2]| == 1
    requires m < |lv| - 1 && n < |Collapsed(lv)[m]|
    ensures m < |lv| - 2 ==> Collapsed(lv)[m] == lv[m]
    ensures m == |lv| - 2 ==> n == 0 && Collapsed(lv)[m][n] == Rec(lv[|lv| - 1][0].id, lv[|lv| - 2][0].inodes)
  {
  }

  lemma {:induction false} CollapseIds(lv: Stack, c: Pgid)
    requires WF(lv) && |lv| > 1 && |lv[|lv| - 2]| == 1 && lv[|lv| - 2][0].id == c
    ensures Ids(Collapsed(lv)) == Ids(lv) - {c}
  {
    var t, lv' := |lv| - 1, Collapsed(lv);
    forall id | id in Ids(lv') ensures id in Ids(lv) && id != c {
      var m, n := InIds(lv', id);
      CollapseAt(lv, m, n);
      var m', n' := if m == t - 1 then t else m, n;
      IdsIn(lv, m', n');
      Differ(lv, m', n', t - 1, 0);
    }
    forall id | id in Ids(lv) && id != c ensures id in Ids(lv') {
      var m, n := InIds(lv, id);
      var m' := if m == t then t - 1 else m;
      CollapseAt(lv, m', n);
      IdsIn(lv', m', n);
    }
  }

  lemma {:induction false} CollapseShown(a: Nodes, pages: Pages, lv: Stack, c: Pgid)
    requires SingleChild(a, pages, lv, c)
    ensures |lv[|lv| - 2]| == 1
    ensures ShownAll(Collapse(a, Root(lv).id, c), pages, Collapsed(lv))
    ensures Strict(Collapse(a, Root(lv).id, c), pages, Collapsed(lv))
  {
    CollapseShapes(a, pages, lv, c);
    var t, a', lv' := |lv| - 1, Collapse(a, Root(lv).id, c), Collapsed(lv);
    forall m, n | 0 <= m < |lv'| && 0 <= n < |lv'[m]| ensures ShownAt(a', pages, lv', m, n) {
      CollapseAt(lv, m, n);
      assert ShownAt(a, pages, lv, m, n);
      if m < t - 1 {
        Differ(lv, m, n, t - 1, 0);
        Differ(lv, m, n, t, 0);
      }
    }
    forall m, n | 0 < m < |lv'| && 0 <= n < |lv'[m]| ensures StrictAt(a', pages, lv', m, n) {
      CollapseAt(lv, m, n);
      assert StrictAt(a, pages, lv, m, n);
      forall e | 0 <= e < |lv'[m][n].inodes| ensures EntryStrict(a', pages, lv'[m][n].inodes[e]) {
        assert EntryStrict(a, pages, lv[m][n].inodes[e]);
        var j := PlaceEntry(lv, m, n, e);
        Differ(lv, m - 1, j, t - 1, 0);
      }
    }
  }

  lemma {:induction false} CollapseLink(a: Nodes, pages: Pages, lv: Stack, c: Pgid, id: Pgid)
    requires SingleChild(a, pages, lv, c) && id in a && id != c
    ensures LinkOk(Collapse(a, Root(lv).id, c), Root(lv).id, id)
  {
    CollapseShapes(a, pages, lv, c);
    assert LinkOk(a, Root(lv).id, id) && LinkOk(a, Root(lv).id, c);
  }

  lemma {:induction false} CollapseList(a: Nodes, pages: Pages, lv: Stack, c: Pgid, id: Pgid)
    requires SingleChild(a, pages, lv, c) && id in a && id != c
    ensures ListOk(Collapse(a, Root(lv).id, c), id)
  {
    CollapseShapes(a, pages, lv, c);
    assert LinkOk(a, Root(lv).id, id) && ListOk(a, id) && ListOk(a, c);
  }

  /** Collapsing the root keeps the materialised nodes in step with the tree. */
  lemma {:induction false} CollapseTied(a: Nodes, pages: Pages, lv: Stack, c: Pgid)
    requires SingleChild(a, pages, lv, c)
    ensures |lv[|lv| - 2]| == 1
    ensures Tied(Collapse(a, Root(lv).id, c), pages, Collapsed(lv))
    ensures Contents(Collapsed(lv)) == Contents(lv) && Ids(Collapsed(lv)) == Ids(lv) - {c}
    ensures Root(Collapsed(lv)).id == Root(lv).id
  {
    CollapseShapes(a, pages, lv, c);
    var a', lv' := Collapse(a, Root(lv).id, c), Collapsed(lv);
    assert WF(lv') && Contents(lv') == Contents(lv) by { CollapsedWF(lv); }
    assert Ids(lv') == Ids(lv) - {c} by { CollapseIds(lv, c); }
    CollapseShown(a, pages, lv, c);
    assert Linked(a', Root(lv').id) && Listed(a') by {
      forall id | id in a' ensures LinkOk(a', Root(lv').id, id) && ListOk(a', id) {
        CollapseLink(a, pages, lv, c, id);
        CollapseList(a, pages, lv, c, id);
      }
    }
  }

  // ---- Bucket.node: a page becomes a node ----

  ghost function FirstKey(xs: seq<Inode>): Key
  {
    if xs == [] then [] else xs[0].key
  }

  ghost function FromPage(pg: Page, parent: Option<Pgid>): NodeState
  {
    NodeState(pg.isLeaf, false, FirstKey(pg.inodes), parent, [], pg.inodes)
  }

  ghost function Materialise(a: Nodes, pages: Pages, id: Pgid, p: Pgid): Nodes
    requires id in pages && p in a
  {
    a[p := a[p].(children := a[p].children + [id])][id := FromPage(pages[id], Some(p))]
  }

  lemma {:induction false} MaterialiseTied(a: Nodes, pages: Pages, lv: Stack, id: Pgid, p: Pgid)
    requires Tied(a, pages, lv) && p in a && !a[p].isLeaf && PointsTo(a[p].inodes, id) && id !in a
    ensures id in pages && pages[id].inodes != [] && id in Ids(lv)
    ensures Tied(Materialise(a, pages, id, p), pages, lv)
  {
    var k, q := Place(a, pages, lv, p);
    var i :| 0 <= i < |a[p].inodes| && a[p].inodes[i].pgid == id;
    var j := PlaceEntry(lv, k, q, i);
    IdsIn(lv, k - 1, j);
    assert StrictAt(a, pages, lv, k, q);
    assert EntryStrict(a, pages, lv[k][q].inodes[i]);
    var a' := Materialise(a, pages, id, p);
    forall m, n | 0 <= m < |lv| && 0 <= n < |lv[m]| ensures ShownAt(a', pages, lv, m, n) {
      assert ShownAt(a, pages, lv, m, n);
    }
    forall m, n | 0 < m < |lv| && 0 <= n < |lv[m]| ensures StrictAt(a', pages, lv, m, n) {
      assert StrictAt(a, pages, lv, m, n);
      assert forall e :: 0 <= e < |lv[m][n].inodes| ==> EntryStrict(a, pages, lv[m][n].inodes[e]);
    }
    MaterialiseLinks(a, pages, lv, id, p, k, q, i);
    MaterialiseLists(a, pages, lv, id, p, k, q, i);
  }

  /** Node q of level k is cached as p, and the child of its entry i is a page that is not. */
  ghost predicate Uncached(a: Nodes, pages: Pages, lv: Stack, id: Pgid, p: Pgid, k: nat, q: nat, i: nat)
  {
    && Tied(a, pages, lv) && p in a && id !in a && id in pages && pages[id].inodes != []
    && 0 < k < |lv| && q < |lv[k]| && lv[k][q].id == p && i < |a[p].inodes| && a[p].inodes == lv[k][q].inodes
    && a[p].inodes[i].pgid == id && pages[id].inodes[0].key == a[p].inodes[i].key
  }

  lemma {:induction false} MaterialiseLinks(a: Nodes, pages: Pages, lv: Stack, id: Pgid, p: Pgid, k: nat, q: nat,
                                            i: nat)
    requires Uncached(a, pages, lv, id, p, k, q, i)
    ensures Linked(Materialise(a, pages, id, p), Root(lv).id)
  {
    var a' := Materialise(a, pages, id, p);
    var j := PlaceEntry(lv, k, q, i);
    Differ(lv, k - 1, j, |lv| - 1, 0);
    forall x | x in a' ensures LinkOk(a', Root(lv).id, x) {
      assert x != id ==> LinkOk(a, Root(lv).id, x);
    }
  }

  lemma {:induction false} MaterialiseLists(a: Nodes, pages: Pages, lv: Stack, id: Pgid, p: Pgid, k: nat, q: nat,
                                            i: nat)
    requires Uncached(a, pages, lv, id, p, k, q, i)
    ensures Listed(Materialise(a, pages, id, p))
  {
    var a' := Materialise(a, pages, id, p);
    forall c | c in a ensures a[c].parent != Some(id) {
      assert LinkOk(a, Root(lv).id, c);
    }
    forall x | x in a' ensures ListOk(a', x) {
      assert x != id ==> ListOk(a, x);
      if x == p {
        DistinctConcat(a[p].children, [id]);
      }
    }
  }
}
