/** Nodes and buckets: the part of the tree a write transaction holds in memory, changed in place. */
module Buckets {
  import opened Options
  import opened Bytes
  import opened Pgids
  import opened Levels
  import opened Tree
  import opened Arena
  import opened Steps

  const LEAF_ELEMENT_SIZE := 16
  const BRANCH_ELEMENT_SIZE := 16

  /** The bytes the entries take on a page, without its header. */
  ghost function BodySize(xs: seq<Inode>): nat
  {
    if xs == [] then 0
    else BodySize(xs[..|xs| - 1]) + 16 + |xs[|xs| - 1].key| + |xs[|xs| - 1].value|
  }

  /** sort.Search for the first entry not before the key. */
  method LowerBound(xs: seq<Inode>, key: Key) returns (index: nat)
    requires Asc(xs)
    ensures index == Search(xs, key)
  {
    var i, j := 0, |xs|;
    while i < j
      invariant 0 <= i <= j <= |xs|
      invariant forall m :: 0 <= m < i ==> Lt(xs[m].key, key)
      invariant forall m :: j <= m < |xs| ==> !Lt(xs[m].key, key)
    {
      var h := (i + j) / 2;
      if Compare(xs[h].key, key) != -1 {
        j := h;
      } else {
        i := h + 1;
      }
    }
    index := i;
    SearchIs(xs, key, i);
  }

  /** node.size: the bytes of a node with these entries. */
  method NodeSize(isLeaf: bool, xs: seq<Inode>) returns (sz: nat)
    ensures sz == 16 + BodySize(xs)
  {
    var elsz := if isLeaf then LEAF_ELEMENT_SIZE else BRANCH_ELEMENT_SIZE;
    sz := PAGE_HEADER_SIZE;
    for i := 0 to |xs|
      invariant sz == PAGE_HEADER_SIZE + BodySize(xs[..i])
    {
      assert xs[..i + 1][..i] == xs[..i];
      sz := sz + elsz + |xs[i].key| + |xs[i].value|;
    }
    assert xs[..|xs|] == xs;
  }

  /** A quarter page or less, or fewer entries than a node of its kind should have. */
  ghost predicate Small(xs: seq<Inode>, leaf: bool, pageSize: nat)
  {
    16 + BodySize(xs) <= pageSize / 4 || |xs| <= (if leaf then 1 else 2)
  }

  /** node: an in-memory, deserialized page. */
  class Node {
    ghost const id: Pgid  // the page the node was read from; pgid is 0 once that page is freed
    var isLeaf: bool
    var unbalanced: bool
    var key: Key
    var pgid: Pgid
    var parent: Node?
    var children: seq<Node>
    var inodes: seq<Inode>

    /** node.read: the entries of a page, and its first key, by which the parent knows it. */
    constructor Read(id: Pgid, page: Page, parent: Node?)
      ensures this.id == id && pgid == id && this.parent == parent && children == []
      ensures State() == FromPage(page, if parent == null then None else Some(parent.id))
    {
      this.id := id;
      this.pgid := id;
      this.isLeaf := page.isLeaf;
      this.unbalanced := false;
      this.key := if |page.inodes| > 0 then page.inodes[0].key else [];
      this.parent := parent;
      this.children := [];
      this.inodes := page.inodes;
    }

    ghost function State(): NodeState
      reads this
    {
      NodeState(isLeaf, unbalanced, key, if parent == null then None else Some(parent.id), NodeIds(children), inodes)
    }

    method Size() returns (sz: nat)
      ensures sz == 16 + BodySize(inodes)
    {
      sz := NodeSize(isLeaf, inodes);
    }

    /** The least number of entries a node should have. */
    function MinKeys(): nat
      reads this
    {
      if isLeaf then 1 else 2
    }

    /** node.put; it panics, and changes nothing, for a page at or above the high-water mark or an empty key. */
    method Put(oldKey: Key, newKey: Key, value: seq<Byte>, pgid: Pgid, flags: nat, highWater: Pgid) returns (ok: bool)
      requires Asc(inodes)
      modifies this`inodes
      ensures ok <==> pgid < highWater && oldKey != [] && newKey != []
      ensures inodes == if ok then PutInode(old(inodes), oldKey, Inode(flags, pgid, newKey, value)) else old(inodes)
    {
      if pgid >= highWater || |oldKey| <= 0 || |newKey| <= 0 {
        return false;
      }
      var index := LowerBound(inodes, oldKey);
      var exact := |inodes| > 0 && index < |inodes| && inodes[index].key == oldKey;
      if !exact {
        inodes := inodes[..index] + [Inode(0, 0, [], [])] + inodes[index..];
      }
      inodes := inodes[index := Inode(flags, pgid, newKey, value)];
      ok := true;
    }

    method Del(k: Key)
      requires Asc(inodes)
      modifies this`inodes, this`unbalanced
      ensures inodes == DelInode(old(inodes), k)
      ensures unbalanced == (old(unbalanced) || Found(old(inodes), k))
    {
      var index := LowerBound(inodes, k);
      if index >= |inodes| || inodes[index].key != k {
        return;
      }
      inodes := inodes[..index] + inodes[index + 1..];
      unbalanced := true;
    }

    method RemoveChild(target: Node)
      modifies this`children
      ensures children == Without(old(children), target)
    {
      for i := 0 to |children|
        invariant children == old(children)
        invariant forall m :: 0 <= m < i ==> children[m] != target
      {
        if children[i] == target {
          WithoutAt(children, target, i);
          children := children[..i] + children[i + 1..];
          return;
        }
      }
      WithoutNone(children, target);
    }
  }

  lemma {:induction false} SearchIs(xs: seq<Inode>, k: Key, i: nat)
    requires i <= |xs| && (i < |xs| ==> !Lt(xs[i].key, k)) && forall m :: 0 <= m < i ==> Lt(xs[m].key, k)
    ensures Search(xs, k) == i
  {
  }

  ghost function NodeIds(s: seq<Node>): (r: seq<Pgid>)
    ensures |r| == |s| && forall i :: 0 <= i < |s| ==> r[i] == s[i].id
  {
    seq(|s|, i requires 0 <= i < |s| => s[i].id)
  }

  lemma {:induction false} WithoutAt<T>(s: seq<T>, x: T, i: nat)
    requires i < |s| && s[i] == x && forall m :: 0 <= m < i ==> s[m] != x
    ensures Without(s, x) == s[..i] + s[i + 1..]
  {
    if i > 0 {
      WithoutAt(s[1..], x, i - 1);
      assert s[..i] == [s[0]] + s[1..][..i - 1];
    }
  }

  lemma {:induction false} WithoutNone<T>(s: seq<T>, x: T)
    requires forall m :: 0 <= m < |s| ==> s[m] != x
    ensures Without(s, x) == s
  {
    if s != [] {
      WithoutNone(s[1..], x);
    }
  }

  /** Dropping a node from a list drops its page from the pages of the list. */
  lemma {:induction false} WithoutIds(s: seq<Node>, x: Node)
    requires forall y :: y in s && y.id == x.id ==> y == x
    ensures NodeIds(Without(s, x)) == Without(NodeIds(s), x.id)
  {
    if s != [] {
      assert s[0] in s;
      WithoutIds(s[1..], x);
      assert NodeIds(s[1..]) == NodeIds(s)[1..];
      if s[0] != x {
        assert NodeIds([s[0]] + Without(s[1..], x)) == [s[0].id] + NodeIds(Without(s[1..], x));
      }
    }
  }

  /** Bucket, with the cached nodes of its tree. */
  class Bucket {
    const pages: Pages       // the pages the transaction sees
    const pageSize: nat
    var root: Pgid
    var nodes: map<Pgid, Node>
    var freed: set<Pgid>     // pages handed to the freelist
    ghost var model: Nodes   // the cached nodes as values
    ghost var levels: Stack  // the tree they and the pages make up
    ghost var Repr: set<Node>

    /** A cached node holds what the model says, and links only to cached nodes. */
    ghost predicate CachedAt(id: Pgid)
      requires id in nodes && id in model
      reads `nodes, `model, `Repr, nodes[id]
    {
      var n := nodes[id];
      && n in Repr && n.id == id && n.pgid == id && n.State() == model[id]
      && (n.parent != null ==> Has(n.parent)) && KinCached(n.children)
    }

    ghost predicate KinCached(s: seq<Node>)
      reads `nodes
    {
      forall c {:trigger Has(c)} :: c in s ==> Has(c)
    }

    ghost predicate Cached()
      reads `nodes, `model, `Repr, nodes.Values
    {
      nodes.Keys == model.Keys && forall id {:trigger CachedAt(id)} :: id in nodes ==> CachedAt(id)
    }

    ghost predicate Valid()
      reads this, nodes.Values
    {
      Cached() && InStep(model, pages, levels) && RootId(levels) == root && Ids(levels) !! freed
    }

    ghost predicate Has(n: Node)
      reads `nodes
    {
      n.id in nodes && nodes[n.id] == n
    }

    /** openBucket: a bucket of pages only. */
    constructor Open(pages: Pages, pageSize: nat, root: Pgid, ghost levels: Stack)
      requires InStep(map[], pages, levels) && RootId(levels) == root
      ensures Valid() && nodes == map[] && model == map[] && freed == {} && Repr == {}
      ensures this.pages == pages && this.pageSize == pageSize && this.root == root && this.levels == levels
    {
      this.pages := pages;
      this.pageSize := pageSize;
      this.root := root;
      this.nodes := map[];
      this.freed := {};
      this.model := map[];
      this.levels := levels;
      this.Repr := {};
    }

    /** Node kin.0 has joined the cache below node kin.1. */
    twostate lemma {:induction false} JoinedCache(kin: (Pgid, Pgid))
      requires var (id, q) := kin;
        && old(Cached()) && q in old(nodes) && id !in old(nodes) && id in pages
        && id in nodes && nodes == old(nodes)[id := nodes[id]] && Repr == old(Repr) + {nodes[id]}
        && nodes[q].State() == old(nodes[q].State()).(children := nodes[q].State().children)
        && nodes[q].parent == old(nodes[q].parent) && nodes[q].pgid == old(nodes[q].pgid)
        && nodes[q].children == old(nodes[q].children) + [nodes[id]]
        && model == Materialise(old(model), pages, id, q) && CachedAt(id)
        && forall x :: x in old(nodes) && x != q ==> unchanged(old(nodes[x]))
      ensures Cached()
    {
      var (id, q) := kin;
      forall x | x in nodes ensures CachedAt(x) {
        if x != id {
          assert old(CachedAt(x));
          assert forall c :: c in nodes[x].children ==> c == nodes[id] || old(Has(c));
        }
      }
    }

    /** A node that was read joins the cache, below its parent. */
    method Cache(n: Node, p: Node)
      requires Cached() && Has(p) && n.id in pages && n.id !in nodes && n.pgid == n.id
      requires n.State() == FromPage(pages[n.id], Some(p.id)) && n.parent == p && n.children == []
      modifies this`nodes, this`model, this`Repr, p`children
      ensures Cached() && nodes == old(nodes)[n.id := n] && Repr == old(Repr) + {n}
      ensures model == Materialise(old(model), pages, n.id, p.id)
    {
      forall x | x in nodes ensures nodes[x].id == x {
        assert CachedAt(x);
      }
      p.children := p.children + [n];
      nodes := nodes[n.pgid := n];
      Repr := Repr + {n};
      model := Materialise(model, pages, n.id, p.id);
      JoinedCache((n.id, p.id));
    }

    /** node.childAt. */
    method ChildAt(p: Node, index: nat) returns (n: Node)
      requires Valid() && Has(p) && !p.isLeaf && index < |p.inodes|
      modifies this`nodes, this`model, this`Repr, p`children
      ensures Valid() && Has(n) && Has(p) && n.id == p.inodes[index].pgid && n.parent == p
      ensures fresh(Repr - old(Repr)) && old(Repr) <= Repr
      ensures n.id in old(model) ==> model == old(model) && nodes == old(nodes)
      ensures n.id !in old(model) ==> fresh(n) && nodes == old(nodes)[n.id := n] && n.id != p.id
      ensures n.id !in old(model) ==> n.id in pages && model == Materialise(old(model), pages, n.id, p.id)
    {
      var id := p.inodes[index].pgid;
      assert CachedAt(p.id);
      assert model[p.id].inodes[index].pgid == id;
      ChildStep(model, pages, levels, id, p.id);
      if id in nodes {
        n := nodes[id];
        assert CachedAt(id);
      } else {
        n := new Node.Read(id, pages[id], p);
        Cache(n, p);
      }
    }

    /** Bucket.node for the root. */
    method RootNode() returns (n: Node)
      requires Valid() && AllHealthy(levels, model)
      modifies `nodes, `model, `Repr
      ensures Valid() && Has(n) && n.id == root && AllHealthy(levels, model) && Marked(model) == old(Marked(model))
      ensures fresh(Repr - old(Repr)) && old(Repr) <= Repr
    {
      if root in nodes {
        n := nodes[root];
        assert CachedAt(root);
        return;
      }
      RootStep(model, pages, levels);
      n := new Node.Read(root, pages[root], null);
      nodes := nodes[root := n];
      Repr := Repr + {n};
      model := ReadRoot(model, pages, root);
      assert CachedAt(root);
    }

    /** node.childAt while nothing is being rebalanced. */
    method HealthyChildAt(p: Node, index: nat) returns (n: Node)
      requires Valid() && Has(p) && !p.isLeaf && index < |p.inodes| && AllHealthy(levels, model)
      modifies `nodes, `model, `Repr, p`children
      ensures Valid() && Has(n) && n.id == old(p.inodes[index]).pgid
      ensures AllHealthy(levels, model) && Marked(model) == old(Marked(model))
      ensures fresh(Repr - old(Repr)) && old(Repr) <= Repr
    {
      n := ChildAt(p, index);
      if n.id !in old(model) {
        ReadAllHealth(old(model), pages, levels, n.id, p.id);
      }
    }

    /** node.put on a cached node. */
    method PutIn(n: Node, x: Inode, highWater: Pgid)
      requires Valid() && Has(n) && n.id in model && Asc(model[n.id].inodes) && x.key != [] && x.pgid < highWater
      modifies `model, n`inodes
      ensures Cached()
      ensures model == SetEntries(old(model), n.id, PutInode(old(model)[n.id].inodes, x.key, x),
        old(model)[n.id].unbalanced)
    {
      assert CachedAt(n.id);
      var ok := n.Put(x.key, x.key, x.value, x.pgid, x.flags, highWater);
      assert ok;
      model := SetEntries(model, n.id, n.inodes, n.unbalanced);
      forall id | id in nodes ensures CachedAt(id) {
        assert old(CachedAt(id));
        assert id != n.id ==> nodes[id] != n;
      }
    }

    /** node.del on a cached node. */
    method DelFrom(n: Node, key: Key)
      requires Valid() && Has(n) && n.id in model && Asc(model[n.id].inodes)
      modifies `model, n`inodes, n`unbalanced
      ensures Cached()
      ensures model == SetEntries(old(model), n.id, DelInode(old(model)[n.id].inodes, key),
        old(model)[n.id].unbalanced || Found(old(model)[n.id].inodes, key))
    {
      assert CachedAt(n.id);
      n.Del(key);
      model := SetEntries(model, n.id, n.inodes, n.unbalanced);
      forall id | id in nodes ensures CachedAt(id) {
        assert old(CachedAt(id));
        assert id != n.id ==> nodes[id] != n;
      }
    }

    /** One turn of the loop below. */
    method ReparentOne(child: Node, dst: Node, src: Node)
      requires child.parent == src && child != src && child != dst && dst != src
      modifies child`parent, src`children, dst`children
      ensures child.parent == dst && dst.children == old(dst.children) + [child]
      ensures NodeIds(dst.children) == NodeIds(old(dst.children)) + [child.id]
      ensures src.children == Without(old(src.children), child)
    {
      child.parent.RemoveChild(child);
      child.parent := dst;
      child.parent.children := child.parent.children + [child];
    }

    /** Node id once the first entries ys of src have been gone through. */
    ghost predicate PassedBy(id: Pgid, dst: Node, ys: seq<Inode>)
      requires id in nodes && id in model
      reads this, nodes[id]
    {
      var n := nodes[id];
      && n in Repr && n.id == id && n.pgid == id && KinCached(n.children)
      && (if PointsTo(ys, id) then n.State() == model[id].(parent := Some(dst.id)) && n.parent == dst
          else n.State() == model[id] && (n.parent != null ==> Has(n.parent)))
    }

    ghost predicate PassedAll(dst: Node, src: Node, ys: seq<Inode>)
      requires nodes.Keys == model.Keys && Has(dst)
      reads this, nodes.Values, dst
    {
      && dst.State() == model[dst.id].(children := model[dst.id].children + Materialised(model, ys))
      && KinCached(dst.children) && dst.pgid == dst.id && (dst.parent != null ==> Has(dst.parent))
      && forall id {:trigger PassedBy(id, dst, ys)} ::
        id in nodes && id != src.id && id != dst.id ==> PassedBy(id, dst, ys)
    }

    /** One turn of the loop below. */
    method ReparentTurn(dst: Node, src: Node, x: Inode, ghost ys: seq<Inode>)
      requires nodes.Keys == model.Keys && Has(dst) && Has(src) && dst != src && PassedAll(dst, src, ys)
      requires !PointsTo(ys, x.pgid) || x.pgid !in nodes
      requires x.pgid in nodes ==> model[x.pgid].parent == Some(src.id)
      requires x.pgid != src.id && x.pgid != dst.id
      modifies nodes.Values`parent, src`children, dst`children
      ensures PassedAll(dst, src, ys + [x]) && src.parent == old(src.parent)
    {
      ghost var zs := ys + [x];
      assert zs[..|zs| - 1] == ys;
      if x.pgid in nodes {
        assert PassedBy(x.pgid, dst, ys);
        ReparentOne(nodes[x.pgid], dst, src);
      }
      forall id | id in nodes && id != src.id && id != dst.id ensures PassedBy(id, dst, zs) {
        assert old(PassedBy(id, dst, ys));
        PointsToNext(ys, x, id);
      }
    }

    /** The cached children of src are the cached nodes its entries point to, each once. */
    ghost predicate KidsOf(src: Node)
      requires nodes.Keys == model.Keys
      reads this, src
    {
      && (forall i :: 0 <= i < |src.inodes| && src.inodes[i].pgid in nodes ==>
        model[src.inodes[i].pgid].parent == Some(src.id))
      && (forall i, j :: 0 <= i < j < |src.inodes| && src.inodes[i].pgid in nodes ==>
        src.inodes[i].pgid != src.inodes[j].pgid)
    }

    /** The loop of rebalance that moves the cached children of src below dst. */
    method Reparent(dst: Node, src: Node)
      requires Cached() && Has(dst) && Has(src) && dst != src && KidsOf(src)
      requires model[src.id].parent != Some(src.id) && model[dst.id].parent != Some(src.id)
      modifies nodes.Values`parent, src`children, dst`children
      ensures PassedAll(dst, src, src.inodes) && src.parent == old(src.parent)
    {
      assert CachedAt(dst.id) && CachedAt(src.id);
      forall id | id in nodes ensures PassedBy(id, dst, src.inodes[..0]) {
        assert CachedAt(id);
      }
      for i := 0 to |src.inodes|
        invariant PassedAll(dst, src, src.inodes[..i]) && src.parent == old(src.parent)
      {
        assert src.inodes[..i + 1] == src.inodes[..i] + [src.inodes[i]];
        ReparentTurn(dst, src, src.inodes[i], src.inodes[..i]);
      }
      assert src.inodes[..|src.inodes|] == src.inodes;
    }

    /** node.free, for a page read from disk. */
    method Free(n: Node)
      requires n.pgid == n.id
      modifies this`freed, n`pgid
      ensures freed == old(freed) + {n.id} && n.pgid == 0
    {
      freed := freed + {n.pgid};
      n.pgid := 0;
    }

    /** What merging and removing ask of a node that goes: it is a child of p, and of no other. */
    ghost predicate Leaves(n: Node, p: Node)
      requires nodes.Keys == model.Keys
      reads this, n, p
    {
      && Has(n) && Has(p) && n != p && n.parent == p && Listed(model) && model[p.id].parent != Some(n.id)
      && model[n.id].parent == Some(p.id) && Asc(p.inodes)
    }

    /** The children of p without n. */
    lemma {:induction false} OtherKids(n: Node, p: Node)
      requires nodes.Keys == model.Keys && Leaves(n, p) && CachedAt(p.id)
      ensures NodeIds(Without(p.children, n)) == Without(model[p.id].children, n.id)
      ensures forall c :: c in Without(p.children, n) ==> c in p.children && c != n
    {
      assert ListOk(model, p.id);
      assert forall y :: y in p.children ==> Has(y);
      WithoutIds(p.children, n);
      WithoutNodes(p.children, n);
    }

    /** The entry, the link and the page of n go; the nodes below it are gone or moved already. */
    method Detach(n: Node, p: Node)
      requires nodes.Keys == model.Keys && Leaves(n, p) && CachedAt(p.id) && n.pgid == n.id
      modifies this`nodes, this`freed, n`pgid, p`inodes, p`unbalanced, p`children
      ensures nodes == old(nodes) - {n.id} && freed == old(freed) + {n.id}
      ensures p.inodes == DelInode(old(p.inodes), n.key)
      ensures p.unbalanced == (old(p.unbalanced) || Found(old(p.inodes), n.key))
      ensures p.children == Without(old(p.children), n)
      ensures NodeIds(p.children) == Without(model[p.id].children, n.id)
      ensures forall c :: c in p.children ==> c in old(p.children) && c != n
    {
      OtherKids(n, p);
      p.Del(n.key);
      p.RemoveChild(n);
      nodes := nodes - {n.pgid};
      Free(n);
    }

    lemma {:induction false} InRepr()
      requires Cached()
      ensures forall n :: n in nodes.Values ==> n in Repr
    {
      forall n | n in nodes.Values ensures n in Repr {
        var id :| id in nodes && nodes[id] == n;
        assert CachedAt(id);
      }
    }

    /** The children of node f.1 are below its left sibling f.0 by now; f.2 is their parent. */
    ghost predicate Passed(f: (Pgid, Pgid, Pgid))
      reads this, nodes.Values
    {
      var (l, r, p) := f;
      && l in nodes && r in nodes && p in nodes && l != r && l != p && r != p && nodes.Keys == model.Keys
      && (forall x :: x in nodes ==> nodes[x].id == x)
      && nodes[l] in Repr && PassedAll(nodes[l], nodes[r], nodes[r].inodes) && CachedAt(p)
      && model[r].inodes == nodes[r].inodes && model[r].key == nodes[r].key && nodes[r].pgid == r
      && Leaves(nodes[r], nodes[p]) && OwnKids(model, r) && model[l].parent == Some(p)
      && Found(model[p].inodes, model[r].key)
    }

    /** Then f.0 took over the entries of f.1, and f.2 dropped it. */
    twostate predicate Absorbed(f: (Pgid, Pgid, Pgid))
      reads this, nodes.Values
    {
      var (l, r, p) := f;
      && old(Passed(f)) && nodes == old(nodes) - {r} && Repr == old(Repr) && model == Join(old(model), l, r, p)
      && nodes[l].State() == old(nodes[l].State()).(inodes := old(nodes[l].inodes) + old(nodes[r].inodes))
      && nodes[l].children == old(nodes[l].children) && nodes[l].parent == old(nodes[l].parent)
      && nodes[l].pgid == old(nodes[l].pgid)
      && nodes[p].State() == model[p] && nodes[p].parent == old(nodes[p].parent) && nodes[p].pgid == p
      && (forall c :: c in nodes[p].children ==> c in old(nodes[p].children) && c != old(nodes[r]))
      && (forall x :: x in nodes && x != l && x != p ==> unchanged(nodes[x]))
    }

    twostate lemma {:induction false} AbsorbedLeft(f: (Pgid, Pgid, Pgid))
      requires Absorbed(f)
      ensures CachedAt(f.0)
    {
      var (l, r, p) := f;
      NotBelow(old(model), r, p);
      forall c | c in nodes[l].children ensures Has(c) {
        assert old(Has(c));
        assert c.id in NodeIds(nodes[l].children);
      }
    }

    twostate lemma {:induction false} AbsorbedParent(f: (Pgid, Pgid, Pgid))
      requires Absorbed(f)
      ensures CachedAt(f.2)
    {
      var (l, r, p) := f;
      forall c | c in nodes[p].children ensures Has(c) {
        assert old(Has(c));
      }
      assert nodes[p].parent != null ==> old(Has(nodes[p].parent));
    }

    twostate lemma {:induction false} AbsorbedOther(f: (Pgid, Pgid, Pgid, Pgid))
      requires Absorbed((f.0, f.1, f.2)) && f.3 in nodes && f.3 != f.0 && f.3 != f.2
      ensures CachedAt(f.3)
    {
      var (l, r, p, x) := f;
      assert old(PassedBy(x, nodes[l], nodes[r].inodes));
      NotBelow(old(model), r, p);
      forall c | c in nodes[x].children ensures Has(c) {
        assert old(Has(c));
        assert c.id in NodeIds(nodes[x].children);
      }
    }

    twostate lemma {:induction false} AbsorbedAll(f: (Pgid, Pgid, Pgid))
      requires Absorbed(f)
      ensures Cached()
    {
      AbsorbedLeft(f);
      AbsorbedParent(f);
      forall x | x in nodes && x != f.0 && x != f.2 ensures CachedAt(x) {
        AbsorbedOther((f.0, f.1, f.2, x));
      }
    }

    /** The right of two siblings, whose children are below the left one by now, moves into it. */
    method Absorb(left: Node, right: Node, p: Node)
      requires Has(left) && Has(right) && Has(p) && Passed((left.id, right.id, p.id))
      modifies this`nodes, this`freed, this`model, right`pgid, p`inodes, p`unbalanced, p`children, left`inodes
      ensures Cached() && model == Join(old(model), left.id, right.id, p.id)
      ensures nodes == old(nodes) - {right.id} && freed == old(freed) + {right.id}
    {
      left.inodes := left.inodes + right.inodes;
      Detach(right, p);
      model := Join(model, left.id, right.id, p.id);
      AbsorbedAll((left.id, right.id, p.id));
    }

    /** Merging two siblings: the right one's children move over, then its entries, then it goes. */
    method Merge(left: Node, right: Node, p: Node)
      requires Cached() && Has(left) && Has(right) && Has(p) && left != right && left != p && right != p
      requires left.parent == p && right.parent == p && Asc(p.inodes) && Found(p.inodes, right.key)
      requires Listed(model) && OwnKids(model, right.id) && model[p.id].parent != Some(right.id)
      modifies this`nodes, this`freed, this`model, Repr
      ensures Cached() && model == Join(old(model), left.id, right.id, p.id) && Has(p) && p.unbalanced
      ensures nodes == old(nodes) - {right.id} && freed == old(freed) + {right.id}
    {
      InRepr();
      assert CachedAt(left.id) && CachedAt(right.id) && CachedAt(p.id);
      forall x | x in nodes ensures nodes[x].id == x {
        assert CachedAt(x);
      }
      Reparent(left, right);
      assert PassedBy(p.id, left, right.inodes);
      Absorb(left, right, p);
      assert CachedAt(p.id);
    }

    /** The empty node f.0 is gone, and its parent f.1 dropped it. */
    twostate predicate Dropped(f: (Pgid, Pgid))
      reads this, nodes.Values
    {
      var (n, p) := f;
      && old(Cached()) && n in old(nodes) && p in old(nodes) && n != p
      && nodes == old(nodes) - {n} && Repr == old(Repr) && model == Drop(old(model), n, p)
      && OwnKids(old(model), n) && Listed(old(model)) && old(model[n].parent) == Some(p) && old(model[n].inodes) == []
      && nodes[p].State() == model[p] && nodes[p].parent == old(nodes[p].parent) && nodes[p].pgid == p
      && (forall c :: c in nodes[p].children ==> c in old(nodes[p].children) && c != old(nodes[n]))
      && (forall x :: x in nodes && x != p ==> unchanged(nodes[x]))
    }

    twostate lemma {:induction false} DroppedAll(f: (Pgid, Pgid))
      requires Dropped(f)
      ensures Cached()
    {
      forall x | x in nodes ensures CachedAt(x) {
        DroppedAt((f.0, f.1, x));
      }
    }

    twostate lemma {:induction false} DroppedAt(f: (Pgid, Pgid, Pgid))
      requires Dropped((f.0, f.1)) && f.2 in nodes
      ensures CachedAt(f.2)
    {
      var (n, p, x) := f;
      assert old(CachedAt(x) && CachedAt(n));
      NotBelow(old(model), n, p);
      forall c | c in nodes[x].children ensures Has(c) {
        assert old(Has(c));
        assert x != p ==> c.id in NodeIds(nodes[x].children);
      }
      assert !PointsTo(old(model)[n].inodes, x);
    }

    /** Removing an empty node. */
    method Remove(n: Node, p: Node)
      requires Cached() && Has(n) && Has(p) && n != p && n.parent == p && n.inodes == []
      requires Asc(p.inodes) && Found(p.inodes, n.key)
      requires Listed(model) && OwnKids(model, n.id) && model[p.id].parent != Some(n.id)
      modifies this`nodes, this`freed, this`model, Repr
      ensures Cached() && model == Drop(old(model), n.id, p.id) && Has(p) && p.unbalanced
      ensures nodes == old(nodes) - {n.id} && freed == old(freed) + {n.id}
    {
      InRepr();
      assert CachedAt(n.id) && CachedAt(p.id);
      forall x | x in nodes ensures nodes[x].id == x {
        assert CachedAt(x);
      }
      Detach(n, p);
      model := Drop(model, n.id, p.id);
      DroppedAll((n.id, p.id));
      assert CachedAt(p.id);
    }

    /** Every cached node but the root and its child c is below the root if the entries ys say so. */
    ghost predicate AdoptedAll(root: Node, c: Node, ys: seq<Inode>)
      requires nodes.Keys == model.Keys
      reads this, nodes.Values
    {
      forall id {:trigger PassedBy(id, root, ys)} ::
        id in nodes && id != root.id && id != c.id ==> PassedBy(id, root, ys)
    }

    /** The loop of rebalance that makes the root the parent of the cached children moving up. */
    method Adopt(root: Node, c: Node)
      requires nodes.Keys == model.Keys && Has(root) && Has(c) && root != c && AdoptedAll(root, c, [])
      requires !PointsTo(root.inodes, root.id) && !PointsTo(root.inodes, c.id)
      requires forall x :: x in nodes ==> nodes[x].id == x
      modifies nodes.Values`parent
      ensures AdoptedAll(root, c, root.inodes) && root.parent == old(root.parent) && c.parent == old(c.parent)
    {
      assert root.inodes[..0] == [];
      for i := 0 to |root.inodes|
        invariant AdoptedAll(root, c, root.inodes[..i]) && root.parent == old(root.parent) && c.parent == old(c.parent)
      {
        var x := root.inodes[i];
        ghost var ys := root.inodes[..i];
        assert root.inodes[..i + 1] == ys + [x];
        AdoptOne(root, c, x, ys);
      }
      assert root.inodes[..|root.inodes|] == root.inodes;
    }

    method AdoptOne(root: Node, c: Node, x: Inode, ghost ys: seq<Inode>)
      requires nodes.Keys == model.Keys && Has(root) && Has(c) && root != c && AdoptedAll(root, c, ys)
      requires x.pgid != root.id && x.pgid != c.id
      requires forall x :: x in nodes ==> nodes[x].id == x
      modifies nodes.Values`parent
      ensures AdoptedAll(root, c, ys + [x]) && root.parent == old(root.parent) && c.parent == old(c.parent)
    {
      if x.pgid in nodes {
        assert PassedBy(x.pgid, root, ys);
        nodes[x.pgid].parent := root;
      }
      forall id | id in nodes && id != root.id && id != c.id ensures PassedBy(id, root, ys + [x]) {
        assert old(PassedBy(id, root, ys));
        PointsToNext(ys, x, id);
      }
    }

    /** The root f.0 holds what its only child f.1 held, and is the parent of its children. */
    ghost predicate MovedUp(f: (Pgid, Pgid))
      reads this, nodes.Values
    {
      var (r, c) := f;
      && r in nodes && c in nodes && r != c && nodes.Keys == model.Keys
      && (forall x :: x in nodes ==> nodes[x].id == x)
      && nodes[r] in Repr && nodes[r].pgid == r && nodes[r].parent == null && nodes[c].pgid == c
      && KinCached(nodes[r].children) && AdoptedAll(nodes[r], nodes[c], model[c].inodes)
      && nodes[r].State() ==
        model[r].(isLeaf := model[c].isLeaf, inodes := model[c].inodes, children := model[c].children)
      && Listed(model) && KidsExactly(model, c) && model[c].parent == Some(r) && model[r].parent == None
    }

    twostate predicate Collapsing(f: (Pgid, Pgid))
      reads this, nodes.Values
    {
      && old(MovedUp(f)) && nodes == old(nodes) - {f.1} && Repr == old(Repr)
      && model == Collapse(old(model), f.0, f.1) && (forall x :: x in nodes ==> unchanged(nodes[x]))
    }

    twostate lemma {:induction false} CollapsedAt(f: (Pgid, Pgid, Pgid))
      requires Collapsing((f.0, f.1)) && f.2 in nodes
      ensures CachedAt(f.2)
    {
      var (r, c, x) := f;
      assert x != r ==> old(PassedBy(x, nodes[r], model[c].inodes));
      var y := if x == r then c else x;
      assert ListOk(old(model), y);
      forall k | k in nodes[x].children ensures Has(k) {
        assert old(Has(k));
        assert k.id in NodeIds(nodes[x].children);
      }
    }

    twostate lemma {:induction false} CollapsedAll(f: (Pgid, Pgid))
      requires Collapsing(f)
      ensures Cached()
    {
      forall x | x in nodes ensures CachedAt(x) {
        CollapsedAt((f.0, f.1, x));
      }
    }

    method MoveUp(n: Node, child: Node)
      requires Cached() && Has(n) && Has(child) && n != child && n.parent == null && child.parent == n
      requires Listed(model) && KidsExactly(model, child.id)
      modifies Repr
      ensures MovedUp((n.id, child.id)) && Has(n) && Has(child)
    {
      InRepr();
      assert CachedAt(n.id) && CachedAt(child.id);
      forall x | x in nodes ensures nodes[x].id == x {
        assert CachedAt(x);
      }
      n.isLeaf := child.isLeaf;
      n.inodes := child.inodes;
      n.children := child.children;
      assert AdoptedAll(n, child, []) by {
        forall id | id in nodes && id != n.id && id != child.id ensures PassedBy(id, n, []) {
          assert old(CachedAt(id));
        }
      }
      Adopt(n, child);
    }

    /** The root takes over its only child. */
    method TakeOver(n: Node, child: Node)
      requires Cached() && Has(n) && Has(child) && n != child && n.parent == null && child.parent == n
      requires Listed(model) && KidsExactly(model, child.id)
      modifies this`nodes, this`freed, this`model, Repr
      ensures Cached() && model == Collapse(old(model), n.id, child.id)
      ensures nodes == old(nodes) - {child.id} && freed == old(freed) + {child.id}
    {
      InRepr();
      MoveUp(n, child);
      DropChild(n, child);
    }

    method DropChild(n: Node, child: Node)
      requires MovedUp((n.id, child.id)) && Has(n) && Has(child)
      modifies this`nodes, this`freed, this`model, child
      ensures Cached() && model == Collapse(old(model), n.id, child.id) && child.parent == null
      ensures nodes == old(nodes) - {child.id} && freed == old(freed) + {child.id}
    {
      child.parent := null;
      nodes := nodes - {child.pgid};
      Free(child);
      model := Collapse(model, n.id, child.id);
      CollapsedAll((n.id, child.id));
    }

    /** What rebalancing keeps: the entries in order, the root page, and every page, which is in
        the tree or was handed to the freelist, never both. */
    twostate predicate Conserved()
      reads this
    {
      && Entries(levels) == old(Entries(levels)) && RootId(levels) == old(RootId(levels))
      && Ids(levels) + freed == old(Ids(levels) + freed)
    }

    /** A cached node as the model has it. */
    lemma {:induction false} Seen(n: Node)
      requires Cached() && Has(n)
      ensures n.id in model && model[n.id].inodes == n.inodes && model[n.id].key == n.key
        && model[n.id].isLeaf == n.isLeaf
      ensures model[n.id].parent == if n.parent == null then None else Some(n.parent.id)
      ensures model[n.id].unbalanced == n.unbalanced
    {
      assert CachedAt(n.id);
    }

    /** Each leaf, but for those in but, went, or lost its right neighbour, or stands as before. */
    twostate predicate Leads(but: set<Pgid>)
      reads this
    {
      Traced(old(levels), old(model), levels, model, freed, but)
    }

    /** If node id was a leaf of a larger tree, it or its right neighbour is freed now. */
    twostate predicate OneGone(id: Pgid)
      reads this
    {
      forall next, xs :: Beside(old(levels), id, next, xs) ==> OneFreed(freed, id, next)
    }

    /** What rebalancing has work with: a marked node of a quarter page or less or with too few entries,
        and of root nodes a branch with one entry. */
    ghost predicate Acts(n: Node)
      reads n
    {
      && n.unbalanced
      && if n.parent == null then !n.isLeaf && |n.inodes| == 1 else Small(n.inodes, n.isLeaf, pageSize)
    }

    /** rebalance for a node without entries. */
    method RemoveNode(n: Node, p: Node)
      requires Valid() && Has(n) && Has(p) && n.parent == p && n.inodes == [] && HealthyBut(levels, model, n.id)
      modifies this`nodes, this`freed, this`model, this`levels, Repr
      ensures Valid() && Has(p) && p.unbalanced && At(levels, 1, p.id) && HealthyBut(levels, model, p.id)
      ensures Conserved() && |levels| == |old(levels)| && Marked(model) <= old(Marked(model)) + {p.id}
      ensures n.id !in Marked(model) && freed == old(freed) + {n.id} && n.id !in old(freed) && Leads({})
    {
      Seen(n);
      Seen(p);
      ghost var lv := DropStep(model, pages, levels, n.id, p.id);
      OwnKidsHold(model, pages, levels, n.id);
      ghost var k := NodeAt(model, pages, levels, n.id);
      ParentFacts(model, pages, levels, n.id, k);
      Remove(n, p);
      levels := lv;
    }

    /** If id is a leaf, next is the one to its right. */
    ghost predicate NextIs(id: Pgid, next: Pgid)
      reads `levels
    {
      forall o, xs :: Beside(levels, id, o, xs) ==> o == Some(next)
    }

    /** rebalance for a node that goes together with the sibling to its right or left. */
    method MergeNodes(left: Node, right: Node, p: Node, ghost n: Node, ghost h: nat)
      requires Valid() && Has(left) && Has(right) && Has(p) && left.parent == p && right.parent == p
      requires (n == left || n == right) && At(levels, h, n.id) && n.inodes != [] && HealthyBut(levels, model, n.id)
      requires IsEntry(model, left.id, p.id) && IsEntry(model, right.id, p.id)
      requires Search(p.inodes, left.key) + 1 == Search(p.inodes, right.key)
      modifies this`nodes, this`freed, this`model, this`levels, Repr
      ensures Valid() && Has(p) && p.unbalanced && At(levels, h + 1, p.id) && HealthyBut(levels, model, p.id)
      ensures Conserved() && |levels| == |old(levels)| && Marked(model) <= old(Marked(model)) + {p.id}
      ensures freed == old(freed) + {right.id} && right.id !in old(freed) && Leads({})
      ensures n == left ==> old(NextIs(left.id, right.id))
    {
      Seen(left);
      Seen(right);
      Seen(p);
      JoinReady(model, pages, levels, left.id, right.id, p.id);
      ghost var lv := JoinStep(model, pages, levels, left.id, right.id, p.id, n.id, h);
      Merge(left, right, p);
      levels := lv;
    }

    /** rebalance for a root branch with one child. */
    method CollapseRoot(n: Node)
      requires Valid() && Has(n) && n.parent == null && !n.isLeaf && |n.inodes| == 1
      requires n.id == root && HealthyBut(levels, model, n.id)
      modifies this`nodes, this`freed, this`model, this`levels, this`Repr, Repr
      ensures Valid() && AllHealthy(levels, model)
      ensures Conserved() && Marked(model) <= old(Marked(model)) && fresh(Repr - old(Repr)) && old(Repr) <= Repr
      ensures old(freed) < freed && Leads({})
    {
      assert CachedAt(n.id);
      var child := ChildAt(n, 0);
      if child.id !in old(model) {
        ReadHealth(old(model), pages, levels, child.id, n.id, n.id);
      }
      assert CachedAt(n.id) && CachedAt(child.id);
      ghost var lv := CollapseStep(model, pages, levels, child.id);
      TakeOver(n, child);
      levels := lv;
    }

    /** nextSibling for the first child of a node, prevSibling for the others. */
    method Sibling(n: Node, p: Node) returns (target: Node, next: bool)
      requires Valid() && Has(n) && Has(p) && n.parent == p && HealthyBut(levels, model, n.id)
      requires |p.inodes| > 1 && IsEntry(model, n.id, p.id)
      modifies this`nodes, this`model, this`Repr, p`children
      ensures Valid() && Has(n) && Has(p) && Has(target) && target.parent == p && HealthyBut(levels, model, n.id)
      ensures IsEntry(model, n.id, p.id) && IsEntry(model, target.id, p.id)
      ensures if next then Search(p.inodes, n.key) + 1 == Search(p.inodes, target.key)
              else Search(p.inodes, target.key) + 1 == Search(p.inodes, n.key)
      ensures next <==> old(Search(p.inodes, n.key)) == 0
      ensures Marked(model) == old(Marked(model)) && fresh(Repr - old(Repr)) && old(Repr) <= Repr
    {
      Seen(n);
      Seen(p);
      var index := LowerBound(p.inodes, n.key);
      next := index == 0;
      target := ChildAt(p, if next then index + 1 else index - 1);
      if target.id !in old(model) {
        ReadHealth(old(model), pages, levels, target.id, p.id, n.id);
      }
      Seen(target);
      Seen(p);
      Seen(n);
      EntryIndex(model, pages, levels, target.id, p.id, if next then index + 1 else index - 1);
      EntryIndex(model, pages, levels, n.id, p.id, index);
    }

    method Unmarked(n: Node)
      requires Valid() && Has(n)
      modifies this`model, n`unbalanced
      ensures Valid() && Has(n) && !n.unbalanced && Marked(model) == old(Marked(model)) - {n.id}
      ensures old(HealthyBut(levels, model, n.id)) ==> HealthyBut(levels, model, n.id)
      ensures n.inodes == old(n.inodes) && n.isLeaf == old(n.isLeaf) && n.parent == old(n.parent) && Leads({n.id})
    {
      UnmarkStep(model, pages, levels, n.id);
      assert CachedAt(n.id);
      n.unbalanced := false;
      model := Unmark(model, n.id);
      forall x | x in nodes ensures CachedAt(x) {
        assert old(CachedAt(x));
        assert x != n.id ==> nodes[x] != n;
      }
    }

    /** rebalance: combines a node that became too small with a sibling. */
    method Rebalance(n: Node, ghost h: nat)
      requires Valid() && Has(n) && At(levels, h, n.id) && HealthyBut(levels, model, n.id)
      requires n.unbalanced || AllHealthy(levels, model)
      modifies this`nodes, this`freed, this`model, this`levels, this`Repr, Repr
      ensures Valid() && AllHealthy(levels, model)
      ensures Conserved() && fresh(Repr - old(Repr)) && old(Repr) <= Repr
      ensures Marked(model) <= old(Marked(model)) - {n.id}
      ensures if old(Acts(n)) then old(freed) < freed && OneGone(n.id) else freed == old(freed) && levels == old(levels)
      ensures old(freed) <= freed && Leads({n.id})
      decreases |levels| - h, 1
    {
      assert CachedAt(n.id);
      if !n.unbalanced {
        TracedSame(levels, model, model, freed, {n.id});
        return;
      }
      Unmarked(n);
      ghost var lv, a := levels, model;
      var threshold := pageSize / 4;
      var size := n.Size();
      if size > threshold && |n.inodes| > n.MinKeys() {
        assert CachedAt(n.id);
        NodeFacts(model, pages, levels, n.id, h);
        HealthOf(model, pages, levels, n.id, h);
        return;
      }
      Combine(n, h);
      TracedTwice(lv, old(model), lv, a, old(freed), levels, model, freed, {n.id}, {});
    }

    /** The rest of rebalance, for a node that is small enough. */
    method Combine(n: Node, ghost h: nat)
      requires Valid() && Has(n) && At(levels, h, n.id) && HealthyBut(levels, model, n.id) && n.id !in Marked(model)
      modifies this`nodes, this`freed, this`model, this`levels, this`Repr, Repr
      ensures Valid() && AllHealthy(levels, model)
      ensures Conserved() && fresh(Repr - old(Repr)) && old(Repr) <= Repr
      ensures Marked(model) <= old(Marked(model))
      ensures if old(n.parent != null || (!n.isLeaf && |n.inodes| == 1)) then old(freed) < freed && OneGone(n.id)
              else freed == old(freed) && levels == old(levels)
      ensures Leads({})
      decreases |levels| - h, 0
    {
      assert CachedAt(n.id);
      NodeFacts(model, pages, levels, n.id, h);
      if n.parent == null {
        AboveLeaves(model, pages, levels, n.id, h);
        if !n.isLeaf && |n.inodes| == 1 {
          CollapseRoot(n);
        } else {
          HealthOf(model, pages, levels, n.id, h);
          TracedSame(levels, model, model, freed, {});
        }
        return;
      }
      var p := n.parent;
      ParentFacts(model, pages, levels, n.id, h);
      ParentWide(model, pages, levels, n.id, p.id);
      assert CachedAt(p.id);
      if |n.inodes| == 0 {
        RemoveNode(n, p);
        RebalanceParent(p, 1, old(levels), old(model));
      } else {
        assert |p.inodes| > 1;
        MergeSibling(n, p, h);
        RebalanceParent(p, h + 1, old(levels), old(model));
      }
    }

    /** The last step of rebalance; the tree was lv with nodes a before. */
    method RebalanceParent(p: Node, ghost k: nat, ghost lv: Stack, ghost a: Nodes)
      requires Valid() && Has(p) && At(levels, k, p.id) && k > 0 && HealthyBut(levels, model, p.id) && p.unbalanced
      requires Traced(lv, a, levels, model, freed, {})
      modifies this`nodes, this`freed, this`model, this`levels, this`Repr, Repr
      ensures Valid() && AllHealthy(levels, model)
      ensures Conserved() && fresh(Repr - old(Repr)) && old(Repr) <= Repr
      ensures Marked(model) <= old(Marked(model)) - {p.id}
      ensures old(freed) <= freed && Traced(lv, a, levels, model, freed, {})
      decreases |levels| - k, 2
    {
      ghost var lv1, a1 := levels, model;
      AboveLeaves(model, pages, levels, p.id, k);
      Rebalance(p, k);
      TracedTwice(lv, a, lv1, a1, old(freed), levels, model, freed, {}, {p.id});
    }

    /** The merging part of rebalance. */
    method MergeSibling(n: Node, p: Node, ghost h: nat)
      requires Valid() && Has(n) && Has(p) && n.parent == p && n.inodes != [] && HealthyBut(levels, model, n.id)
      requires |p.inodes| > 1 && IsEntry(model, n.id, p.id) && At(levels, h, n.id)
      modifies this`nodes, this`freed, this`model, this`levels, this`Repr, Repr
      ensures Valid() && Has(p) && p.unbalanced && At(levels, h + 1, p.id) && HealthyBut(levels, model, p.id)
      ensures Conserved() && |levels| == |old(levels)| && Marked(model) <= old(Marked(model)) + {p.id}
      ensures fresh(Repr - old(Repr)) && old(Repr) <= Repr
      ensures old(freed) < freed && OneGone(n.id) && Leads({})
    {
      assert CachedAt(p.id) && CachedAt(n.id);
      var target, next := Sibling(n, p);
      ghost var a := model;
      TracedSame(levels, old(model), model, freed, {});
      if next {
        MergeNodes(n, target, p, n, h);
      } else {
        MergeNodes(target, n, p, n, h);
      }
      TracedTwice(old(levels), old(model), old(levels), a, old(freed), levels, model, freed, {}, {});
    }

    /** One turn of the loop below. */
    method Visit(n: Node, ghost lv: Stack, ghost a: Nodes)
      requires Valid() && Has(n) && n.id in model && AllHealthy(levels, model)
      requires Pursued(lv, a, levels, model, freed, pageSize)
      modifies this`nodes, this`freed, this`model, this`levels, this`Repr, Repr
      ensures Valid() && AllHealthy(levels, model) && Conserved()
      ensures fresh(Repr - old(Repr)) && old(Repr) <= Repr && Marked(model) <= old(Marked(model)) - {n.id}
      ensures Pursued(lv, a, levels, model, freed, pageSize)
    {
      ghost var h := NodeAt(model, pages, levels, n.id);
      Seen(n);
      forall next, xs | Beside(levels, n.id, next, xs) && n.id in Marked(model) && Small(xs, true, pageSize)
        ensures Acts(n)
      {
        BesideIs(model, pages, levels, n.id, next, xs);
      }
      ghost var lv1, a1 := levels, model;
      Rebalance(n, h);
      PursuedNext(lv, a, lv1, a1, old(freed), levels, model, freed, n.id, pageSize);
    }

    /** Bucket.rebalance: visits every cached node once or more, in any order. Nodes that were merged
        away are skipped, nodes read on the way may be visited or not. */
    method RebalanceAll(order: seq<Pgid>)
      requires Valid() && AllHealthy(levels, model) && forall id :: id in nodes ==> id in order
      modifies this`nodes, this`freed, this`model, this`levels, this`Repr, Repr
      ensures Valid() && Conserved() && Balanced(levels) && Marked(model) == {}
      ensures fresh(Repr - old(Repr)) && old(Repr) <= Repr
      ensures forall id, next, xs ::
        Beside(old(levels), id, next, xs) && id in old(Marked(model)) && Small(xs, true, pageSize) ==>
        OneFreed(freed, id, next)
    {
      for i := 0 to |order|
        invariant Valid() && AllHealthy(levels, model) && Conserved()
        invariant Pursued(old(levels), old(model), levels, model, freed, pageSize)
        invariant fresh(Repr - old(Repr)) && old(Repr) <= Repr
        invariant forall id :: id in Marked(model) ==> id in order[i..]
      {
        if order[i] in nodes {
          var n := nodes[order[i]];
          assert CachedAt(order[i]);
          Visit(n, old(levels), old(model));
        }
      }
      HealthyUnmarked(levels, model);
      assert Steps.Open(0);
    }
  }

  /** Of each small leaf that was marked and its right neighbour one is freed, or both stand as before and
      the leaf is still marked. */
  ghost predicate Pursued(lv: Stack, a: Nodes, lv': Stack, a': Nodes, freed: set<Pgid>, pageSize: nat)
  {
    forall x {:trigger Open(x)} :: Open(x) ==>
      forall id, next, xs {:trigger Beside(lv, id, next, xs)} ::
        Beside(lv, id, next, xs) && id in Marked(a) && Small(xs, true, pageSize) ==>
        OneFreed(freed, id, next) || (Beside(lv', id, next, xs) && id in Marked(a'))
  }

  lemma {:induction false} PursuedNext(lv: Stack, a: Nodes, lv1: Stack, a1: Nodes, freed1: set<Pgid>, lv2: Stack,
                                       a2: Nodes, freed2: set<Pgid>, n: Pgid, pageSize: nat)
    requires Pursued(lv, a, lv1, a1, freed1, pageSize) && Traced(lv1, a1, lv2, a2, freed2, {n}) && freed1 <= freed2
    requires forall next, xs :: Beside(lv1, n, next, xs) && n in Marked(a1) && Small(xs, true, pageSize) ==>
      OneFreed(freed2, n, next)
    ensures Pursued(lv, a, lv2, a2, freed2, pageSize)
  {
    forall id, next, xs | Beside(lv, id, next, xs) && id in Marked(a) && Small(xs, true, pageSize)
      ensures OneFreed(freed2, id, next) || (Beside(lv2, id, next, xs) && id in Marked(a2))
    {
      assert Open(0);
      if !OneFreed(freed1, id, next) && id != n {
        assert WentOrStands(a1, lv2, a2, freed2, id, next, xs);
      }
    }
  }

  /** Only its parent lists a node as its child. */
  lemma {:induction false} NotBelow(a: Nodes, r: Pgid, p: Pgid)
    requires Listed(a) && r in a && OwnKids(a, r) && a[r].parent == Some(p) && r != p
    ensures forall x :: x in a && x != p ==> r !in a[x].children
    ensures r !in Materialised(a, a[r].inodes)
  {
    forall x | x in a && x != p ensures r !in a[x].children {
      assert ListOk(a, x);
    }
    MaterialisedIn(a, a[r].inodes);
  }

  lemma {:induction false} WithoutNodes(s: seq<Node>, x: Node)
    requires Distinct(NodeIds(s))
    ensures forall i :: 0 <= i < |Without(s, x)| ==> Without(s, x)[i] in s && Without(s, x)[i] != x
  {
    forall i, j | 0 <= i < j < |s| ensures s[i] != s[j] {
      assert NodeIds(s)[i] != NodeIds(s)[j];
    }
    WithoutIn(s, x);
  }

  lemma {:induction false} PointsToNext(ys: seq<Inode>, x: Inode, id: Pgid)
    ensures PointsTo(ys + [x], id) <==> PointsTo(ys, id) || x.pgid == id
  {
    if PointsTo(ys, id) {
      var m :| 0 <= m < |ys| && ys[m].pgid == id;
      assert (ys + [x])[m].pgid == id;
    }
    if x.pgid == id {
      assert (ys + [x])[|ys|].pgid == id;
    }
  }
}
