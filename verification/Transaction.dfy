/** A whole write transaction on a bucket without nested buckets: open it, change it, rebalance it, and
    write it to new pages. */
module Transactions {
  import opened Options
  import opened Bytes
  import opened Pgids
  import opened Levels
  import opened Tree
  import opened Arena
  import opened Steps
  import opened Paths
  import opened Buckets
  import opened Updates
  import opened Simulation
  import opened Commits
  import opened Accounts

  /** A bucket as a commit leaves it: on pages, with every entry of a branch under its child's first key,
      and no node too empty. */
  ghost predicate Settled(pages: Pages, lv: Stack)
  {
    InStep(map[], pages, lv) && Balanced(lv) && OnPages(pages, lv)
  }

  lemma {:induction false} SettledHealthy(pages: Pages, lv: Stack)
    requires Settled(pages, lv)
    ensures AllHealthy(lv, map[]) && |lv| > 0
  {
    forall k, j | 0 <= k < |lv| && 0 <= j < |lv[k]| ensures Healthy(lv, map[], k, j) {
    }
  }

  lemma {:induction false} SettledFirst(pages: Pages, lv: Stack)
    requires Settled(pages, lv)
    ensures FirstKeys(lv)
  {
    forall m, q | 0 < m && m + 1 < |lv| && 0 <= q < |lv[m]| && q < |Flat(lv[m + 1])|
      ensures lv[m][q].inodes != [] && Flat(lv[m + 1])[q].key == lv[m][q].inodes[0].key
    {
      var p, i := ParentOf(lv, m, q);
      SepsBelow(lv, m);
      assert lv[m + 1][p].inodes[i].pgid == lv[m][q].id;
      assert pages[lv[m][q].id] == Page(m == 0, lv[m][q].inodes);
    }
  }

  /** What was committed can be changed again. */
  lemma {:induction false} SettledTight(pages: Pages, lv: Stack)
    requires Settled(pages, lv)
    ensures Tight(lv)
  {
    SettledFirst(pages, lv);
    forall m, q | 0 < m < |lv| && 0 < q < |lv[m]| ensures TightAt(lv, m, q) {
      FirstTight(lv, m, q);
    }
  }

  /** The cached nodes as values. */
  method Values(b: Bucket) returns (a: Nodes)
    requires b.Valid()
    ensures a == b.model
  {
    forall id | id in b.nodes ensures b.CachedAt(id) && NodeValue(b.nodes[id]) == b.model[id] {
      NodeValueIs(b, id);
    }
    a := map id | id in b.nodes :: NodeValue(b.nodes[id]);
  }

  function NodeValue(n: Node): NodeState
    reads n, n.parent, n.children
  {
    NodeState(n.isLeaf, n.unbalanced, n.key, if n.parent == null then None else Some(n.parent.pgid),
              seq(|n.children|, i requires 0 <= i < |n.children| reads n, n.children => n.children[i].pgid), n.inodes)
  }

  lemma {:induction false} NodeValueIs(b: Bucket, id: Pgid)
    requires b.Valid() && id in b.nodes
    ensures b.CachedAt(id) && NodeValue(b.nodes[id]) == b.model[id]
  {
    var n := b.nodes[id];
    assert b.CachedAt(id);
    if n.parent != null {
      assert b.CachedAt(n.parent.id);
    }
    forall i | 0 <= i < |n.children| ensures n.children[i].pgid == n.children[i].id {
      assert b.Has(n.children[i]);
      assert b.CachedAt(n.children[i].id);
    }
    assert NodeValue(n).children == NodeIds(n.children);
  }

  /** The cached nodes in some order, as ranging over a map yields them. */
  method Visiting(ids: set<Pgid>) returns (order: seq<Pgid>)
    ensures forall id :: id in order <==> id in ids
  {
    order := [];
    var rest := ids;
    while rest != {}
      invariant forall id :: id in ids <==> id in rest || id in order
      decreases rest
    {
      var id :| id in rest;
      order, rest := order + [id], rest - {id};
    }
  }

  /** The bucket in memory is changed and rebalanced. */
  method Change(pages: Pages, pageSize: nat, root: Pgid, highWater: Pgid, ops: seq<Op>, ghost lv: Stack)
    returns (results: seq<Option<Value>>, nodes: Nodes, freed: set<Pgid>, ghost lv': Stack)
    requires Settled(pages, lv) && RootId(lv) == root && PlainEntries(lv) && highWater > 0
    ensures InStep(nodes, pages, lv') && Balanced(lv') && RootId(lv') == root && PlainEntries(lv')
    ensures AsMap(Entries(lv')) == ModelAll(AsMap(Entries(lv)), ops) && Answers(AsMap(Entries(lv)), ops, results)
    ensures Ids(lv') + freed == Ids(lv) && Ids(lv') !! freed
  {
    SettledReady(pages, lv);
    var b := new Bucket.Open(pages, pageSize, root, lv);
    results := PerformAll(b, Writing(highWater), ops);
    var order := Visiting(b.nodes.Keys);
    b.RebalanceAll(order);
    nodes := Values(b);
    freed, lv' := b.freed, b.levels;
  }

  ghost predicate PlainEntries(lv: Stack)
  {
    Simulation.Plain(Entries(lv))
  }

  lemma {:induction false} SettledReady(pages: Pages, lv: Stack)
    requires Settled(pages, lv)
    ensures AllHealthy(lv, map[]) && Tight(lv) && |lv| > 0 && Asc(Contents(lv))
  {
    SettledHealthy(pages, lv);
    SettledTight(pages, lv);
    LevelAsc(lv, 0);
  }

  /** Page 0 is not freed. */
  lemma {:induction false} ZeroKept(nodes: Nodes, pages: Pages, lv: Stack, lv': Stack, freed: set<Pgid>)
    requires InStep(map[], pages, lv) && InStep(nodes, pages, lv') && RootId(lv') == RootId(lv)
    requires Ids(lv') + freed == Ids(lv) && Ids(lv') !! freed
    ensures 0 !in freed
  {
    Unfold(map[], pages, lv);
    Unfold(nodes, pages, lv');
    IdsIn(lv', |lv'| - 1, 0);
    if |lv| == 1 {
      forall id | id in Ids(lv) ensures id == RootId(lv) {
        var k, j := InIds(lv, id);
      }
    }
  }

  /** The pages before a transaction, of which it freed none, and after it. */
  ghost function Before(lv: Stack, used: set<Pgid>, pages: Pages): Books
  {
    Books(Ids(lv) - {0}, used, {}, pages)
  }

  ghost function After(lv: Stack, used: set<Pgid>, freed: set<Pgid>, pages: Pages): Books
  {
    Books(Ids(lv) - {0}, used, freed, pages)
  }

  lemma {:induction false} ChangeMoved(nodes: Nodes, pages: Pages, lv: Stack, lv': Stack, used: set<Pgid>,
                                       freed: set<Pgid>, pageSize: nat)
    requires pageSize > 0 && InStep(nodes, pages, lv') && Ids(lv') + freed == Ids(lv) && Ids(lv') !! freed
    requires Ids(lv) <= used && 0 !in freed && 0 in used
    ensures InOrder(Before(lv, used, pages)) && InOrder(After(lv', used, freed, pages))
    ensures Moved(Before(lv, used, pages), After(lv', used, freed, pages), freed, pageSize) && nodes.Keys <= used
  {
    CachedIn(nodes, pages, lv');
    assert (Ids(lv') - {0}) * used == Ids(lv) - {0} - freed;
    assert {} + freed == freed;
  }

  /** Changing and spilling together. */
  lemma {:induction false} RunMoved(pages: Pages, lv: Stack, used: set<Pgid>, lv1: Stack, freed1: set<Pgid>,
                                    gone: set<Pgid>, lv2: Stack, used2: set<Pgid>, freed2: set<Pgid>, pages2: Pages,
                                    pageSize: nat)
    requires var b, b1 := Before(lv, used, pages), After(lv1, used, freed1, pages);
             var b2 := After(lv2, used2, freed2, pages2);
             && pageSize > 0 && InOrder(b) && InOrder(b1) && gone <= used
             && Moved(b, b1, freed1, pageSize) && Moved(b1, b2, gone, pageSize)
    ensures MovedTo(Before(lv, used, pages), After(lv2, used2, freed2, pages2), freed2, pageSize)
    ensures Ids(lv) - {0} <= Ids(lv2) + freed2
  {
    var b, b1, b2 := Before(lv, used, pages), After(lv1, used, freed1, pages), After(lv2, used2, freed2, pages2);
    MovedTwice(b, b1, b2, freed1, gone, pageSize);
    MovedIs(b, b2, freed1 + gone, pageSize);
    assert freed2 == {} + (freed1 + gone) == freed1 + gone;
    forall x | x in Ids(lv) - {0} ensures x in Ids(lv2) + freed2 {
      assert x in b.tree && (x in b2.tree * b.used <==> x in b.tree - freed2);
    }
  }

  /** A transaction that commits. Whatever is put, deleted and read, the reads answer as a map would, and
      the bucket ends up on pages holding what the map holds, ready to be opened again. The allocator
      gives out pages outside used, each for a node of the new tree, and no page in use is written to; each
      page of the old tree is in the new one or freed, never both, and nothing else is freed. */
  method Run(pages: Pages, pageSize: nat, fillPercent: real, root: Pgid, highWater: Pgid, used: set<Pgid>, ops: seq<Op>,
             ghost lv: Stack)
    returns (results: seq<Option<Value>>, pages': Pages, root': Pgid, freed: set<Pgid>, used': set<Pgid>,
             ghost lv': Stack)
    requires pageSize > 0 && highWater > 0 && Settled(pages, lv) && RootId(lv) == root && PlainEntries(lv)
    requires Ids(lv) <= used && {0, 1} <= used
    ensures Settled(pages', lv') && RootId(lv') == root' && PlainEntries(lv')
    ensures AsMap(Entries(lv')) == ModelAll(AsMap(Entries(lv)), ops) && Answers(AsMap(Entries(lv)), ops, results)
    ensures Ids(lv) - {0} <= Ids(lv') + freed && Ids(lv') !! freed
    ensures MovedTo(Before(lv, used, pages), After(lv', used', freed, pages'), freed, pageSize)
  {
    var nodes;
    results, nodes, freed, lv' := Change(pages, pageSize, root, highWater, ops, lv);
    ZeroKept(nodes, pages, lv, lv', freed);
    ChangeMoved(nodes, pages, lv, lv', used, freed, pageSize);
    var spiller := new Spiller(pageSize, fillPercent, root, nodes, pages, used, freed, lv');
    ghost var lv1, freed1 := lv', freed;
    spiller.Spill();
    pages', root', freed, used', lv' := spiller.pages, spiller.root, spiller.freed, spiller.used, spiller.levels;
    RunMoved(pages, lv, used, lv1, freed1, nodes.Keys - {} - {0}, lv', used', freed, pages', pageSize);
  }
}
